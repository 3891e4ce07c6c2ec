/**
 * `combine` from the user-interface helpers: two images placed side by side,
 * `left` on the left and `right` on the right, both aligned to the top, in a
 * zero-filled canvas. An image is an `array3<int>` indexed
 * [row, column, channel]; the number of channels is the trailing dimension.
 */
module Interface {
  import opened Wrappers

  /** numpy refuses to assign `right` into the canvas (a `ValueError`). */
  datatype CombineError = ChannelMismatch(leftChannels: nat, rightChannels: nat)

  function Max(a: nat, b: nat): nat
  {
    if a < b then b else a
  }

  /**
   * numpy broadcasting of a block with `from` channels into a block with
   * `into` channels: equal counts, or a single channel repeated.
   */
  predicate Broadcasts(from: nat, into: nat)
  {
    from == into || from == 1
  }

  /** The channel of a `from`-channel block that feeds channel `k` after broadcasting. */
  function SourceChannel(from: nat, k: nat): (j: nat)
    requires from == 1 || k < from
    ensures j < from
    ensures from != 1 ==> j == k
  {
    if from == 1 then 0 else k
  }

  /**
   * Copies every cell of `src` into `dst`, rows from 0 and columns from `col`,
   * broadcasting channels; every other cell of `dst` keeps its value.
   */
  method CopyBlock(dst: array3<int>, src: array3<int>, col: nat)
    requires dst != src
    requires src.Length0 <= dst.Length0 && col + src.Length1 <= dst.Length1
    requires Broadcasts(src.Length2, dst.Length2)
    modifies dst
    ensures forall i, j, k :: 0 <= i < dst.Length0 && 0 <= j < dst.Length1 && 0 <= k < dst.Length2 ==>
      dst[i, j, k] == (if i < src.Length0 && col <= j < col + src.Length1
                       then src[i, j - col, SourceChannel(src.Length2, k)]
                       else old(dst[i, j, k]))
  {
    var i := 0;
    while i < src.Length0
      invariant 0 <= i <= src.Length0
      invariant forall a, b, d :: 0 <= a < dst.Length0 && 0 <= b < dst.Length1 && 0 <= d < dst.Length2 ==>
        dst[a, b, d] == (if a < i && col <= b < col + src.Length1
                         then src[a, b - col, SourceChannel(src.Length2, d)]
                         else old(dst[a, b, d]))
    {
      var j := 0;
      while j < src.Length1
        invariant 0 <= j <= src.Length1
        invariant forall a, b, d :: 0 <= a < dst.Length0 && 0 <= b < dst.Length1 && 0 <= d < dst.Length2 ==>
          dst[a, b, d] == (if (a < i && col <= b < col + src.Length1) || (a == i && col <= b < col + j)
                           then src[a, b - col, SourceChannel(src.Length2, d)]
                           else old(dst[a, b, d]))
      {
        var k := 0;
        while k < dst.Length2
          invariant 0 <= k <= dst.Length2
          invariant forall a, b, d :: 0 <= a < dst.Length0 && 0 <= b < dst.Length1 && 0 <= d < dst.Length2 ==>
            dst[a, b, d] == (if (a < i && col <= b < col + src.Length1) || (a == i && col <= b < col + j)
                                || (a == i && b == col + j && d < k)
                             then src[a, b - col, SourceChannel(src.Length2, d)]
                             else old(dst[a, b, d]))
        {
          dst[i, col + j, k] := src[i, j, SourceChannel(src.Length2, k)];
          k := k + 1;
        }
        j := j + 1;
      }
      i := i + 1;
    }
  }

  /**
   * The canvas is as tall as the taller image and as wide as both together,
   * and has `left`'s channels. `left` fills the top-left block, `right` the
   * block to its right, and every other cell is zero, so the shorter image is
   * padded below with zeros. `right` must broadcast into `left`'s channels.
   * Neither input is written (there is no `modifies` clause).
   */
  method Combine(left: array3<int>, right: array3<int>) returns (r: Result<array3<int>, CombineError>)
    ensures r.Failure? <==> !Broadcasts(right.Length2, left.Length2)
    ensures r.Failure? ==> r.error == ChannelMismatch(left.Length2, right.Length2)
    ensures r.Success? ==> fresh(r.value)
    ensures r.Success? ==>
      && r.value.Length0 == Max(left.Length0, right.Length0)
      && r.value.Length1 == left.Length1 + right.Length1
      && r.value.Length2 == left.Length2
    ensures r.Success? ==> forall i, j, k :: 0 <= i < left.Length0 && 0 <= j < left.Length1 && 0 <= k < left.Length2 ==>
      r.value[i, j, k] == left[i, j, k]
    ensures r.Success? ==> forall i, j, k :: 0 <= i < right.Length0 && 0 <= j < right.Length1 && 0 <= k < left.Length2 ==>
      r.value[i, left.Length1 + j, k] == right[i, j, SourceChannel(right.Length2, k)]
    ensures r.Success? ==> forall i, j, k :: 0 <= i < r.value.Length0 && 0 <= j < r.value.Length1 && 0 <= k < r.value.Length2 ==>
      !(i < left.Length0 && j < left.Length1) && !(i < right.Length0 && left.Length1 <= j) ==> r.value[i, j, k] == 0
  {
    var h := Max(left.Length0, right.Length0);
    var w := left.Length1 + right.Length1;
    var c := left.Length2;
    if !Broadcasts(right.Length2, c) {
      return Failure(ChannelMismatch(c, right.Length2));
    }
    var comb := new int[h, w, c]((i, j, k) => 0);
    CopyBlock(comb, left, 0);
    CopyBlock(comb, right, left.Length1);
    return Success(comb);
  }
}
