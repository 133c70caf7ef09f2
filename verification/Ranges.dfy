/** Byte ranges, Python's tuple sort, and the overlap check of macos_signing_delta.py. */
module Ranges {
  /** Half-open range; Python stores it as the tuple (start, stop). */
  datatype Range = Range(start: int, stop: int)

  predicate Apart(a: Range, b: Range) {
    a.stop <= b.start || b.stop <= a.start
  }

  /** Non-negative, non-empty, pairwise disjoint. */
  predicate DisjointRanges(rs: seq<Range>) {
    && (forall i | 0 <= i < |rs| :: 0 <= rs[i].start < rs[i].stop)
    && (forall i, j | 0 <= i < j < |rs| :: Apart(rs[i], rs[j]))
  }

  predicate AtMost(a: Range, b: Range) {
    a.start < b.start || (a.start == b.start && a.stop <= b.stop)
  }

  function Insert(r: Range, s: seq<Range>): seq<Range> {
    if s == [] || AtMost(r, s[0]) then [r] + s else [s[0]] + Insert(r, s[1..])
  }

  /** The ranges in lexicographic order of start and stop. */
  function Sorted(rs: seq<Range>): seq<Range> {
    if rs == [] then [] else Insert(rs[0], Sorted(rs[1..]))
  }

  predicate Ascending(s: seq<Range>) {
    forall i, j | 0 <= i < j < |s| :: s[i].start <= s[j].start
  }

  lemma {:induction false} InsertMembers(r: Range, s: seq<Range>)
    ensures |Insert(r, s)| == |s| + 1
    ensures forall x :: x in Insert(r, s) <==> x == r || x in s
  {
    if !(s == [] || AtMost(r, s[0])) {
      InsertMembers(r, s[1..]);
      assert s == [s[0]] + s[1..];
    }
  }

  lemma {:induction false} InsertAscending(r: Range, s: seq<Range>)
    requires Ascending(s)
    ensures Ascending(Insert(r, s))
  {
    if !(s == [] || AtMost(r, s[0])) {
      InsertAscending(r, s[1..]);
      InsertMembers(r, s[1..]);
      var t := Insert(r, s[1..]);
      forall j | 0 <= j < |t| ensures s[0].start <= t[j].start {
        assert t[j] in t;
        if t[j] != r { var k :| 0 <= k < |s[1..]| && s[1..][k] == t[j]; assert s[1..][k] == s[k + 1]; }
      }
    }
  }

  lemma {:induction false} SortedMembers(rs: seq<Range>)
    ensures |Sorted(rs)| == |rs| && Ascending(Sorted(rs))
    ensures forall x :: x in Sorted(rs) <==> x in rs
  {
    if rs != [] {
      SortedMembers(rs[1..]);
      InsertMembers(rs[0], Sorted(rs[1..]));
      InsertAscending(rs[0], Sorted(rs[1..]));
      assert rs == [rs[0]] + rs[1..];
    }
  }

  predicate Clear(r: Range, s: seq<Range>) {
    forall x | x in s :: Apart(r, x)
  }

  lemma DisjointTail(r: Range, s: seq<Range>)
    requires DisjointRanges([r] + s)
    ensures 0 <= r.start < r.stop && DisjointRanges(s) && Clear(r, s)
  {
    var t := [r] + s;
    assert t[0] == r && t[1..] == s;
    forall x | x in s ensures Apart(r, x) {
      var i :| 0 <= i < |s| && s[i] == x;
      assert t[i + 1] == x && Apart(t[0], t[i + 1]);
    }
    forall i, j | 0 <= i < j < |s| ensures Apart(s[i], s[j]) { assert t[i + 1] == s[i] && t[j + 1] == s[j]; }
    forall i | 0 <= i < |s| ensures 0 <= s[i].start < s[i].stop { assert t[i + 1] == s[i]; }
  }

  lemma DisjointHead(r: Range, s: seq<Range>)
    requires 0 <= r.start < r.stop && DisjointRanges(s) && Clear(r, s)
    ensures DisjointRanges([r] + s)
  {
    var t := [r] + s;
    forall i, j | 0 <= i < j < |t| ensures Apart(t[i], t[j]) {
      assert t[j] == s[j - 1] && s[j - 1] in s;
      if i > 0 { assert t[i] == s[i - 1] && Apart(s[i - 1], s[j - 1]); }
    }
    forall i | 0 <= i < |t| ensures 0 <= t[i].start < t[i].stop { if i > 0 { assert t[i] == s[i - 1]; } }
  }

  lemma DisjointCons(r: Range, s: seq<Range>)
    ensures DisjointRanges([r] + s) <==> 0 <= r.start < r.stop && DisjointRanges(s) && Clear(r, s)
  {
    if DisjointRanges([r] + s) { DisjointTail(r, s); }
    if 0 <= r.start < r.stop && DisjointRanges(s) && Clear(r, s) { DisjointHead(r, s); }
  }

  lemma ClearCons(r: Range, y: Range, s: seq<Range>)
    ensures Clear(r, [y] + s) <==> Apart(r, y) && Clear(r, s)
  {
    assert forall x :: x in [y] + s <==> x == y || x in s;
  }

  lemma {:induction false} InsertDisjoint(r: Range, s: seq<Range>)
    ensures DisjointRanges(Insert(r, s)) <==> DisjointRanges([r] + s)
  {
    if !(s == [] || AtMost(r, s[0])) {
      var y, t := s[0], s[1..];
      assert s == [y] + t;
      InsertDisjoint(r, t);
      InsertMembers(r, t);
      DisjointCons(y, Insert(r, t));
      assert Clear(y, Insert(r, t)) <==> Clear(y, [r] + t);
      ClearCons(y, r, t);
      ClearCons(r, y, t);
      DisjointCons(r, t);
      DisjointCons(r, s);
      DisjointCons(y, t);
      assert Apart(r, y) == Apart(y, r);
    }
  }

  /** Disjointness does not depend on the order of the list. */
  lemma {:induction false} SortedDisjoint(rs: seq<Range>)
    ensures DisjointRanges(Sorted(rs)) <==> DisjointRanges(rs)
  {
    if rs != [] {
      SortedDisjoint(rs[1..]);
      SortedMembers(rs[1..]);
      InsertDisjoint(rs[0], Sorted(rs[1..]));
      DisjointCons(rs[0], Sorted(rs[1..]));
      DisjointCons(rs[0], rs[1..]);
      assert rs == [rs[0]] + rs[1..];
    }
  }

  /** _disjoint: one ascending pass that remembers only the last stop. */
  method CheckDisjoint(ranges: seq<Range>) returns (ok: bool)
    ensures ok <==> DisjointRanges(ranges)
  {
    SortedDisjoint(ranges);
    SortedMembers(ranges);
    hide Sorted;
    var sorted := Sorted(ranges);
    var end, i := 0, 0;
    while i < |sorted|
      invariant 0 <= i <= |sorted| && 0 <= end
      invariant forall k | 0 <= k < i :: 0 <= sorted[k].start < sorted[k].stop <= end
      invariant forall k, l | 0 <= k < l < i :: sorted[k].stop <= sorted[l].start
      invariant i > 0 ==> end == sorted[i - 1].stop
      invariant i == 0 ==> end == 0
    {
      var r := sorted[i];
      if !(r.start >= end && r.stop > r.start) {
        if 0 <= r.start < r.stop {
          assert i > 0 && !Apart(sorted[i - 1], sorted[i]);
        }
        return false;
      }
      end, i := r.stop, i + 1;
    }
    return true;
  }
}
