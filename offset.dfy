/** Where addLastNBytes starts reading: the tail window, a client pointer, or a
    reset after the file rolled over. */
module Offset {
  import opened Wrappers

  function Max0(x: int): (r: nat)
    ensures r >= x && (r == 0 || r == x)
  {
    if x < 0 then 0 else x
  }

  /** The start offset for file length `len`, client pointer `pointer` and
      configured window `btr` (the "bytes to read" setting). */
  function StartOffset(pointer: Option<int>, len: nat, btr: int): (start: nat)
    ensures pointer.None? ==> start == Max0(len - btr)
    ensures pointer.Some? && pointer.value <= len ==> start == Max0(pointer.value)
    ensures pointer.Some? && len < pointer.value ==> start == Max0(len - btr)
    ensures btr >= 0 ==> start <= len
  {
    var p := match pointer
      case None => len - btr
      case Some(q) => if len < q then len - btr else q;
    if p < 0 then 0 else p
  }

  /** A rolled-over file restarts at the same place as a first load. */
  lemma RolloverRestartsWindow(p: int, len: nat, btr: int)
    requires len < p
    ensures StartOffset(Some(p), len, btr) == StartOffset(None, len, btr)
  {
  }

  lemma FirstLoadWindowExamples()
    ensures StartOffset(None, 5000, 2048) == 2952
    ensures StartOffset(None, 1000, 2048) == 0
  {
  }
}
