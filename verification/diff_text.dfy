/** Python's `'\n'.join(parts)` and its inverse `s.split('\n')`. */
module DiffText {

  /** The parts separated by single newlines: "" for no parts, the part itself for one. */
  function JoinLines(parts: seq<string>): (r: string)
    ensures |parts| == 0 ==> r == ""
    ensures |parts| > 0 ==> |r| == TotalLength(parts) + |parts| - 1
  {
    if |parts| == 0 then ""
    else if |parts| == 1 then parts[0]
    else parts[0] + "\n" + JoinLines(parts[1..])
  }

  /** The sum of the lengths of the parts. */
  function TotalLength(parts: seq<string>): nat {
    if |parts| == 0 then 0 else |parts[0]| + TotalLength(parts[1..])
  }

  /** Where part `i` starts in the joined text: every earlier part plus its separator. */
  function Offset(parts: seq<string>, i: nat): nat
    requires i <= |parts|
  {
    if i == 0 then 0 else |parts[0]| + 1 + Offset(parts[1..], i - 1)
  }

  /**
   * The joined text holds every part, in order, at its offset, and a newline right after
   * each part but the last.
   */
  lemma {:induction false} JoinLinesLayout(parts: seq<string>, i: nat)
    requires i < |parts|
    ensures Offset(parts, i) + |parts[i]| <= |JoinLines(parts)|
    ensures i + 1 < |parts| ==> Offset(parts, i) + |parts[i]| < |JoinLines(parts)|
    ensures JoinLines(parts)[Offset(parts, i)..Offset(parts, i) + |parts[i]|] == parts[i]
    ensures i + 1 < |parts| ==> JoinLines(parts)[Offset(parts, i) + |parts[i]|] == '\n'
  {
    if |parts| == 1 {
    } else {
      var head := parts[0] + "\n";
      var tail := JoinLines(parts[1..]);
      assert JoinLines(parts) == head + tail;
      if i > 0 {
        assert parts[i] == parts[1..][i - 1];
        JoinLinesLayout(parts[1..], i - 1);
        var o := Offset(parts[1..], i - 1);
        assert Offset(parts, i) == |head| + o;
        SliceShift(head, tail, o, o + |parts[i]|);
        if i + 1 < |parts| {
          assert (head + tail)[|head| + o + |parts[i]|] == tail[o + |parts[i]|];
        }
      } else {
        assert (head + tail)[..|parts[0]|] == parts[0];
      }
    }
  }

  /** Slicing past a prefix is slicing the rest. */
  lemma SliceShift(a: string, b: string, lo: nat, hi: nat)
    requires lo <= hi <= |b|
    ensures (a + b)[|a| + lo..|a| + hi] == b[lo..hi]
  {
  }

  /** Joining two non-empty lists puts exactly one separator between their joins. */
  lemma {:induction false} JoinLinesAppend(a: seq<string>, b: seq<string>)
    requires |a| > 0 && |b| > 0
    ensures JoinLines(a + b) == JoinLines(a) + "\n" + JoinLines(b)
  {
    if |a| == 1 {
      assert (a + b)[1..] == b;
    } else {
      assert (a + b)[1..] == a[1..] + b;
      JoinLinesAppend(a[1..], b);
    }
  }

  /** Python's `s.split('\n')`: the maximal newline-free pieces, always at least one. */
  function SplitLines(s: string): (r: seq<string>)
    ensures |r| > 0
  {
    if |s| == 0 then [""]
    else if s[0] == '\n' then [""] + SplitLines(s[1..])
    else
      var t := SplitLines(s[1..]);
      [[s[0]] + t[0]] + t[1..]
  }

  /** A newline-free prefix is glued onto the first piece of what follows. */
  lemma {:induction false} SplitLinesPrefix(p: string, q: string)
    requires '\n' !in p
    ensures SplitLines(p + q) == [p + SplitLines(q)[0]] + SplitLines(q)[1..]
  {
    if |p| == 0 {
      var t := SplitLines(q);
      assert p + q == q;
      assert p + t[0] == t[0];
      assert t == [t[0]] + t[1..];
    } else {
      assert (p + q)[0] == p[0];
      assert (p + q)[1..] == p[1..] + q;
      SplitLinesPrefix(p[1..], q);
      assert [p[0]] + (p[1..] + SplitLines(q)[0]) == p + SplitLines(q)[0];
    }
  }

  /**
   * Splitting the join of non-empty newline-free parts gives the parts back. Diff texts
   * usually contain newlines themselves, so for `_get_diff_string` the characterization
   * is `JoinLinesLayout`; this lemma covers single-line parts only.
   */
  lemma {:induction false} SplitJoinLines(parts: seq<string>)
    requires |parts| > 0
    requires forall i :: 0 <= i < |parts| ==> '\n' !in parts[i]
    ensures SplitLines(JoinLines(parts)) == parts
  {
    SplitLinesPrefix(parts[0], if |parts| == 1 then "" else "\n" + JoinLines(parts[1..]));
    if |parts| == 1 {
      assert parts[0] + "" == parts[0];
    } else {
      var rest := JoinLines(parts[1..]);
      assert parts[0] + "\n" + rest == parts[0] + ("\n" + rest);
      assert ("\n" + rest)[0] == '\n' && ("\n" + rest)[1..] == rest;
      SplitJoinLines(parts[1..]);
      assert parts[0] + "" == parts[0];
      assert parts == [parts[0]] + parts[1..];
    }
  }
}
