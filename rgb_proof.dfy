/** The alignment-proof compositor `make_rgb_proof`: a zero `h x w x 3` byte
    buffer whose red channel is overwritten with image A and whose green
    channel is overwritten with image B, so that features present in both
    appear yellow. */
module RgbProof {
  import opened Images

  /** `proof[:, :, c] = src`: overwrite one channel of the buffer, leaving
      the other channels as they were. */
  method FillChannel(proof: array3<byte>, c: int, src: array2<byte>)
    requires 0 <= c < proof.Length2
    requires src.Length0 == proof.Length0 && src.Length1 == proof.Length1
    modifies proof
    ensures forall i, j, k :: 0 <= i < proof.Length0 && 0 <= j < proof.Length1 && 0 <= k < proof.Length2 ==>
      proof[i, j, k] == if k == c then src[i, j] else old(proof[i, j, k])
  {
    var i := 0;
    while i < proof.Length0
      invariant 0 <= i <= proof.Length0
      invariant forall y, x, k :: 0 <= y < proof.Length0 && 0 <= x < proof.Length1 && 0 <= k < proof.Length2 ==>
        proof[y, x, k] == if k == c && y < i then src[y, x] else old(proof[y, x, k])
    {
      var j := 0;
      while j < proof.Length1
        invariant 0 <= j <= proof.Length1
        invariant forall y, x, k :: 0 <= y < proof.Length0 && 0 <= x < proof.Length1 && 0 <= k < proof.Length2 ==>
          proof[y, x, k] == if k == c && (y < i || (y == i && x < j)) then src[y, x] else old(proof[y, x, k])
      {
        proof[i, j, c] := src[i, j];
        j := j + 1;
      }
      i := i + 1;
    }
  }

  /** `make_rgb_proof(img_A, img_B_warped)`: both images have the same shape
      `(h, w)`; the result is a new `(h, w, 3)` array with red = A, green = B
      and blue = 0. */
  method MakeRgbProof(imgA: array2<byte>, imgB: array2<byte>) returns (proof: array3<byte>)
    requires imgB.Length0 == imgA.Length0 && imgB.Length1 == imgA.Length1
    ensures fresh(proof)
    ensures proof.Length0 == imgA.Length0 && proof.Length1 == imgA.Length1 && proof.Length2 == 3
    ensures forall i, j :: 0 <= i < proof.Length0 && 0 <= j < proof.Length1 ==>
      proof[i, j, 0] == imgA[i, j] && proof[i, j, 1] == imgB[i, j] && proof[i, j, 2] == 0
  {
    var h, w := imgA.Length0, imgA.Length1;
    proof := new byte[h, w, 3]((i, j, k) => 0);
    FillChannel(proof, 0, imgA);
    FillChannel(proof, 1, imgB);
  }
}
