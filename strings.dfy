/**
 * The three operations of Rust's `str` that util.rs builds on, on `seq<char>`:
 * `replace` (global, left to right, non-overlapping), `split` on a character
 * or on a string separator, and `join` of the pieces with a separator.
 */
module Strings {

  /** `p` occurs in `s` at some position. */
  predicate Occurs(p: string, s: string)
    decreases |s|
  {
    p <= s || (|s| > 0 && Occurs(p, s[1..]))
  }

  lemma {:induction false} OccursAt(p: string, s: string, i: nat)
    requires i <= |s| && p <= s[i..]
    ensures Occurs(p, s)
    decreases i
  {
    if i > 0 {
      assert s[1..][i - 1..] == s[i..];
      OccursAt(p, s[1..], i - 1);
    }
  }

  /**
   * `s.replace(pat, rep)`: scanning from the left, each occurrence of `pat`
   * is replaced by `rep` and the scan resumes after it.
   */
  function ReplaceAll(s: string, pat: string, rep: string): string
    requires |pat| > 0
    decreases |s|
  {
    if |s| == 0 then []
    else if pat <= s then rep + ReplaceAll(s[|pat|..], pat, rep)
    else [s[0]] + ReplaceAll(s[1..], pat, rep)
  }

  /** Text without an occurrence of `pat` is returned unchanged. */
  lemma {:induction false} ReplaceAllAbsent(s: string, pat: string, rep: string)
    requires |pat| > 0 && !Occurs(pat, s)
    ensures ReplaceAll(s, pat, rep) == s
    decreases |s|
  {
    if |s| > 0 {
      ReplaceAllAbsent(s[1..], pat, rep);
    }
  }

  /** Text that cannot start an occurrence of `pat` passes through a replace untouched. */
  lemma {:induction false} ReplaceAllSkips(a: string, x: string, pat: string, rep: string)
    requires |pat| > 0 && pat[0] !in a
    ensures ReplaceAll(a + x, pat, rep) == a + ReplaceAll(x, pat, rep)
    decreases |a|
  {
    if |a| == 0 {
      assert a + x == x;
    } else {
      var s := a + x;
      assert s[0] == a[0] != pat[0];
      assert !(pat <= s);
      assert s[1..] == a[1..] + x;
      assert pat[0] !in a[1..];
      ReplaceAllSkips(a[1..], x, pat, rep);
      assert [a[0]] + (a[1..] + ReplaceAll(x, pat, rep)) == a + ReplaceAll(x, pat, rep);
    }
  }

  /** An occurrence in `a + x` where `a` holds no first character of `p` lies in `x`. */
  lemma {:induction false} OccursSkips(p: string, a: string, x: string)
    requires |p| > 0 && p[0] !in a && Occurs(p, a + x)
    ensures Occurs(p, x)
    decreases |a|
  {
    if |a| == 0 {
      assert a + x == x;
    } else {
      var s := a + x;
      assert s[0] == a[0] != p[0];
      assert !(p <= s);
      assert s[1..] == a[1..] + x;
      assert p[0] !in a[1..];
      OccursSkips(p, a[1..], x);
    }
  }

  /** `parts.join(sep)`: the pieces in order, with one separator between neighbours. */
  function Join(parts: seq<string>, sep: string): string
    decreases |parts|
  {
    if |parts| == 0 then []
    else if |parts| == 1 then parts[0]
    else parts[0] + sep + Join(parts[1..], sep)
  }

  /**
   * `s.split(sep)` collected into a vector: always at least one piece, no piece
   * holds the separator, and joining the pieces with it gives `s` back.
   */
  function Split(s: string, sep: char): (parts: seq<string>)
    ensures |parts| > 0
    ensures forall i :: 0 <= i < |parts| ==> sep !in parts[i]
    ensures Join(parts, [sep]) == s
    decreases |s|
  {
    if |s| == 0 then [""]
    else
      var rest := Split(s[1..], sep);
      if s[0] == sep then [""] + rest
      else [[s[0]] + rest[0]] + rest[1..]
  }

  lemma {:induction false} SplitSkips(a: string, x: string, sep: char)
    requires sep !in a
    ensures Split(a + x, sep) == [a + Split(x, sep)[0]] + Split(x, sep)[1..]
    decreases |a|
  {
    if |a| == 0 {
      assert a + x == x;
      assert a + Split(x, sep)[0] == Split(x, sep)[0];
    } else {
      assert (a + x)[1..] == a[1..] + x;
      SplitSkips(a[1..], x, sep);
      assert [a[0]] + (a[1..] + Split(x, sep)[0]) == a + Split(x, sep)[0];
    }
  }

  /** Splitting undoes joining when no piece holds the separator. */
  lemma {:induction false} SplitJoin(parts: seq<string>, sep: char)
    requires |parts| > 0
    requires forall i :: 0 <= i < |parts| ==> sep !in parts[i]
    ensures Split(Join(parts, [sep]), sep) == parts
    decreases |parts|
  {
    if |parts| == 1 {
      SplitSkips(parts[0], [], sep);
      assert parts[0] + [] == parts[0];
    } else {
      var tail := Join(parts[1..], [sep]);
      assert Join(parts, [sep]) == parts[0] + ([sep] + tail);
      SplitSkips(parts[0], [sep] + tail, sep);
      assert ([sep] + tail)[1..] == tail;
      SplitJoin(parts[1..], sep);
      assert parts[0] + "" == parts[0];
      assert parts == [parts[0]] + parts[1..];
    }
  }

  /** `s.split(sep)` for a string separator, matched left to right without overlap. */
  function SplitOn(s: string, sep: string): (parts: seq<string>)
    requires |sep| > 0
    ensures |parts| > 0
    decreases |s|
  {
    if |s| == 0 then [""]
    else if sep <= s then [""] + SplitOn(s[|sep|..], sep)
    else
      var rest := SplitOn(s[1..], sep);
      [[s[0]] + rest[0]] + rest[1..]
  }

  lemma {:induction false} SplitOnSkips(a: string, x: string, sep: string)
    requires |sep| > 0
    requires forall i :: 0 <= i < |a| ==> !(sep <= (a + x)[i..])
    ensures SplitOn(a + x, sep) == [a + SplitOn(x, sep)[0]] + SplitOn(x, sep)[1..]
    decreases |a|
  {
    if |a| == 0 {
      assert a + x == x;
      assert a + SplitOn(x, sep)[0] == SplitOn(x, sep)[0];
    } else {
      assert !(sep <= (a + x)[0..]);
      assert (a + x)[0..] == a + x;
      assert (a + x)[1..] == a[1..] + x;
      forall i | 0 <= i < |a[1..]|
        ensures !(sep <= (a[1..] + x)[i..])
      {
        assert (a[1..] + x)[i..] == (a + x)[i + 1..];
      }
      SplitOnSkips(a[1..], x, sep);
      assert [a[0]] + (a[1..] + SplitOn(x, sep)[0]) == a + SplitOn(x, sep)[0];
    }
  }
}
