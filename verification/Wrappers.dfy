// Shared by every module. Option: an absent Redis value, a failed match, a raised exception.
module Wrappers {
  datatype Option<+T> = None | Some(value: T)

  // text[s:e], with indices past the end cut back
  function Slice(text: string, s: nat, e: nat): string {
    if s <= e <= |text| then text[s..e] else if s <= |text| < e then text[s..] else ""
  }

  lemma {:induction false} SubsetSize<T>(a: set<T>, b: set<T>)
    requires a <= b
    ensures |a| <= |b|
    decreases |a|
  {
    if a != {} {
      var x :| x in a;
      SubsetSize(a - {x}, b - {x});
    }
  }
}
