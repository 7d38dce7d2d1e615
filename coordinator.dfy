/**
  The coordinator's reduction over the published slots (masterThread in
  main.cpp): `std::min_element` picks the first smallest slot.
*/
module Coordinator {
  import opened Sequences

  /**
    The index `std::min_element` returns on `s`: it keeps the current best
    and replaces it only by a strictly smaller element, so among equal
    minima the lowest index wins.
  */
  function FirstMin(s: seq<int32>): (r: nat)
    requires |s| > 0
    ensures r < |s|
    ensures forall j :: 0 <= j < |s| ==> s[r] <= s[j]
    ensures forall j :: 0 <= j < r ==> s[r] < s[j]
  {
    if |s| == 1 then 0
    else
      var best := FirstMin(s[..|s| - 1]);
      if s[|s| - 1] < s[best] then |s| - 1 else best
  }

  /** The coordinator's linear scan of the buffer. */
  method MinElement(buffer: array<int32>) returns (index: nat)
    requires buffer.Length > 0
    ensures index == FirstMin(buffer[..])
  {
    index := 0;
    var i := 1;
    while i < buffer.Length
      invariant 1 <= i <= buffer.Length
      invariant index == FirstMin(buffer[..i])
    {
      assert buffer[..i + 1][..i] == buffer[..i];
      if buffer[i] < buffer[index] {
        index := i;
      }
      i := i + 1;
    }
    assert buffer[..buffer.Length] == buffer[..];
  }
}
