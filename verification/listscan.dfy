/** Python's `for x in lst:` (or `for idx, x in enumerate(lst):`) loop that
    deletes the element it is looking at. The iterator walks index i of the
    CURRENT list, so after a deletion at i the element that moved into i is
    never visited: it is neither tested nor changed on that pass. Used by
    `ConstrManager.scroll` and `PType.shot_list_tick`. */
module ListScan {

  /** The loop as written: visit index `i` of the current list; keep (and
      update) the element or delete it, then go on with index `i + 1`. */
  function ScanFrom<T>(s: seq<T>, i: nat, keep: T -> bool, step: T -> T): (r: seq<T>)
    ensures |r| <= |s|
    ensures i <= |s| ==> i <= |r| && r[..i] == s[..i]
    decreases |s| + 1 - i
  {
    if i >= |s| then s
    else if keep(s[i]) then ScanFrom(s[i := step(s[i])], i + 1, keep, step)
    else ScanFrom(s[..i] + s[i + 1..], i + 1, keep, step)
  }

  /** The same pass described over the ORIGINAL list: an element that comes
      right after a deleted one survives unchanged, untested. */
  function Reference<T>(s: seq<T>, skip: bool, keep: T -> bool, step: T -> T): seq<T>
  {
    if |s| == 0 then []
    else if skip then [s[0]] + Reference(s[1..], false, keep, step)
    else if keep(s[0]) then [step(s[0])] + Reference(s[1..], false, keep, step)
    else Reference(s[1..], true, keep, step)
  }

  /** How many elements the pass deletes. */
  function Deleted<T>(s: seq<T>, skip: bool, keep: T -> bool): nat
  {
    if |s| == 0 then 0
    else if skip || keep(s[0]) then Deleted(s[1..], false, keep)
    else 1 + Deleted(s[1..], true, keep)
  }

  /** The loop leaves the visited prefix alone and treats the rest exactly
      as the reference pass over the original elements does. */
  lemma {:induction false} ScanIsReference<T>(p: seq<T>, r: seq<T>, keep: T -> bool, step: T -> T)
    ensures ScanFrom(p + r, |p|, keep, step) == p + Reference(r, false, keep, step)
    decreases |r|
  {
    var s := p + r;
    if |r| == 0 {
      assert s == p;
    } else {
      assert s[|p|] == r[0];
      if keep(r[0]) {
        var p' := p + [step(r[0])];
        assert s[|p| := step(r[0])] == p' + r[1..];
        assert ScanFrom(s, |p|, keep, step) == ScanFrom(p' + r[1..], |p'|, keep, step);
        ScanIsReference(p', r[1..], keep, step);
        assert Reference(r, false, keep, step) == [step(r[0])] + Reference(r[1..], false, keep, step);
        assert p' + Reference(r[1..], false, keep, step) == p + ([step(r[0])] + Reference(r[1..], false, keep, step));
      } else {
        assert s[..|p|] + s[|p| + 1..] == p + r[1..];
        assert ScanFrom(s, |p|, keep, step) == ScanFrom(p + r[1..], |p| + 1, keep, step);
        assert Reference(r, false, keep, step) == Reference(r[1..], true, keep, step);
        if |r| == 1 {
          assert p + r[1..] == p;
          assert Reference(r[1..], true, keep, step) == [];
        } else {
          var p' := p + [r[1]];
          assert p + r[1..] == p' + r[2..];
          ScanIsReference(p', r[2..], keep, step);
          assert r[1..][1..] == r[2..];
          assert Reference(r[1..], true, keep, step) == [r[1]] + Reference(r[2..], false, keep, step);
          assert p' + Reference(r[2..], false, keep, step) == p + ([r[1]] + Reference(r[2..], false, keep, step));
        }
      }
    }
  }

  /** The result is the original list minus the deleted elements. */
  lemma {:induction false} ReferenceLength<T>(s: seq<T>, skip: bool, keep: T -> bool, step: T -> T)
    ensures |Reference(s, skip, keep, step)| == |s| - Deleted(s, skip, keep)
    ensures Deleted(s, skip, keep) <= |s|
  {
    if |s| > 0 {
      ReferenceLength(s[1..], true, keep, step);
      ReferenceLength(s[1..], false, keep, step);
    }
  }

  /** The whole loop: start at index 0. */
  function Scan<T>(s: seq<T>, keep: T -> bool, step: T -> T): (r: seq<T>)
    ensures r == Reference(s, false, keep, step)
    ensures |r| == |s| - Deleted(s, false, keep)
  {
    ScanIsReference([], s, keep, step);
    assert [] + s == s;
    ReferenceLength(s, false, keep, step);
    ScanFrom(s, 0, keep, step)
  }

  /** An element deleted by the pass shields its successor: with the first
      element failing the test, the second survives untouched. */
  lemma SuccessorOfDeletedSurvives<T>(s: seq<T>, keep: T -> bool, step: T -> T)
    requires |s| >= 2 && !keep(s[0])
    ensures |Scan(s, keep, step)| > 0 && Scan(s, keep, step)[0] == s[1]
  {
    assert s[1..][1..] == s[2..];
    assert Reference(s, false, keep, step) == Reference(s[1..], true, keep, step);
    assert Reference(s[1..], true, keep, step) == [s[1]] + Reference(s[2..], false, keep, step);
  }
}
