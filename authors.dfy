/**
 * `split_authors`: the author list arrives with `:` between names; the
 * output separates them with ", ". Empty names are kept and nothing is
 * trimmed.
 */
module Authors {
  import opened Strings

  const Delimiter: char := ':'
  const Separator: string := ", "

  /** `split_authors(authors)`: split on `:`, join with ", "; each `:` becomes ", ". */
  function SplitAuthors(authors: string): (r: string)
    ensures r == ReplaceAll(authors, [Delimiter], Separator)
  {
    JoinSplitIsReplace(authors, Delimiter, Separator);
    Join(Split(authors, Delimiter), Separator)
  }

  /** Joining the pieces of a split with `rep` replaces every separator by `rep`. */
  lemma {:induction false} JoinSplitIsReplace(s: string, c: char, rep: string)
    ensures Join(Split(s, c), rep) == ReplaceAll(s, [c], rep)
    decreases |s|
  {
    if |s| > 0 {
      var rest := Split(s[1..], c);
      JoinSplitIsReplace(s[1..], c, rep);
      if s[0] == c {
        assert [c] <= s;
        assert Split(s, c) == [""] + rest;
        assert ([""] + rest)[1..] == rest;
      } else {
        assert !([c] <= s);
        var parts := Split(s, c);
        assert parts == [[s[0]] + rest[0]] + rest[1..];
        if |rest| > 1 {
          assert parts[1..] == rest[1..];
        }
      }
    }
  }

  /** A list without `:` is a single author and comes back unchanged. */
  lemma SplitAuthorsSingle(authors: string)
    requires Delimiter !in authors
    ensures SplitAuthors(authors) == authors
  {
    SplitSkips(authors, [], Delimiter);
    assert authors + [] == authors;
  }

  /** ", " cannot straddle the end of a piece that does not contain it. */
  lemma NoSeparatorBefore(a: string, rest: string)
    requires !Occurs(Separator, a)
    ensures forall i :: 0 <= i < |a| ==> !(Separator <= (a + Separator + rest)[i..])
  {
    var t := a + Separator + rest;
    forall i | 0 <= i < |a|
      ensures !(Separator <= t[i..])
    {
      if i + 1 < |a| {
        if Separator <= t[i..] {
          assert a[i..][..2] == t[i..][..2];
          OccursAt(Separator, a, i);
        }
      } else {
        assert t[i + 1] == ',';
      }
    }
  }

  /** Splitting a join on ", " gives the pieces back when none contains ", ". */
  lemma {:induction false} SplitOnJoin(parts: seq<string>)
    requires |parts| > 0
    requires forall i :: 0 <= i < |parts| ==> !Occurs(Separator, parts[i])
    ensures SplitOn(Join(parts, Separator), Separator) == parts
    decreases |parts|
  {
    if |parts| == 1 {
      assert forall i :: 0 <= i < |parts[0]| ==> !(Separator <= (parts[0] + [])[i..]) by {
        forall i | 0 <= i < |parts[0]| ensures !(Separator <= (parts[0] + [])[i..]) {
          assert parts[0] + [] == parts[0];
          if Separator <= parts[0][i..] { OccursAt(Separator, parts[0], i); }
        }
      }
      SplitOnSkips(parts[0], [], Separator);
      assert parts[0] + [] == parts[0];
    } else {
      var tail := Join(parts[1..], Separator);
      NoSeparatorBefore(parts[0], tail);
      assert Join(parts, Separator) == parts[0] + (Separator + tail);
      assert parts[0] + Separator + tail == parts[0] + (Separator + tail);
      SplitOnSkips(parts[0], Separator + tail, Separator);
      assert (Separator + tail)[2..] == tail;
      SplitOnJoin(parts[1..]);
      assert parts[0] + "" == parts[0];
      assert parts == [parts[0]] + parts[1..];
    }
  }

  /**
   * Splitting the output on ", " recovers the author names, provided no name
   * itself contains ", ".
   */
  lemma SplitAuthorsRoundTrip(authors: string)
    requires forall i :: 0 <= i < |Split(authors, Delimiter)| ==> !Occurs(Separator, Split(authors, Delimiter)[i])
    ensures SplitOn(SplitAuthors(authors), Separator) == Split(authors, Delimiter)
  {
    SplitOnJoin(Split(authors, Delimiter));
  }

  lemma SplitAuthorsExamples()
    ensures SplitAuthors("a:b:c") == "a, b, c"
    ensures SplitAuthors("solo") == "solo"
    ensures SplitAuthors("a::b") == "a, , b"
    ensures SplitAuthors("") == ""
  {
    var d := [Delimiter];
    assert ReplaceAll("c", d, Separator) == "c" by { assert !(d <= "c") && "c"[1..] == []; }
    assert ReplaceAll(":c", d, Separator) == ", c" by { assert ":c"[1..] == "c"; }
    assert ReplaceAll("b:c", d, Separator) == "b, c" by { assert "b:c"[1..] == ":c"; }
    assert ReplaceAll(":b:c", d, Separator) == ", b, c" by { assert ":b:c"[1..] == "b:c"; }
    assert ReplaceAll("a:b:c", d, Separator) == "a, b, c" by { assert "a:b:c"[1..] == ":b:c"; }
    assert ReplaceAll("b", d, Separator) == "b" by { assert !(d <= "b") && "b"[1..] == []; }
    assert ReplaceAll(":b", d, Separator) == ", b" by { assert ":b"[1..] == "b"; }
    assert ReplaceAll("::b", d, Separator) == ", , b" by { assert "::b"[1..] == ":b"; }
    assert ReplaceAll("a::b", d, Separator) == "a, , b" by { assert "a::b"[1..] == "::b"; }
    SplitAuthorsSingle("solo");
  }
}
