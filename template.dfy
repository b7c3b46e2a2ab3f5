/**
 * `wh`: fills the `{w}` and `{h}` placeholders of an artwork URL template
 * with the decimal width and height. The code runs two global replaces,
 * width first; the reference definition `Expand` makes one left-to-right
 * pass that substitutes both placeholders at once. The proofs rest on two
 * facts: a placeholder is `{`, one name character, `}`, and a decimal
 * rendering holds neither braces nor name characters.
 */
module Template {
  import opened Strings
  import opened Decimal

  /** Rust's `u32`. */
  type U32 = n: nat | n < 0x1_0000_0000

  const WidthPlaceholder: string := "{w}"
  const HeightPlaceholder: string := "{h}"

  predicate IsPlaceholder(p: string) {
    |p| == 3 && p[0] == '{' && p[2] == '}' && p[1] != '{' && p[1] != '}' && !IsDigit(p[1])
  }

  /**
   * `wh(url, w, h)`: every `{w}` becomes `w`, then every `{h}` becomes `h`;
   * the result is the simultaneous substitution of both.
   */
  function Wh(url: string, w: U32, h: U32): (r: string)
    ensures r == Expand(url, WidthPlaceholder, NatToString(w), HeightPlaceholder, NatToString(h))
  {
    SequentialIsSimultaneous(url, WidthPlaceholder, NatToString(w), HeightPlaceholder, NatToString(h));
    ReplaceAll(ReplaceAll(url, WidthPlaceholder, NatToString(w)), HeightPlaceholder, NatToString(h))
  }

  /** Simultaneous substitution: one scan that expands either placeholder where it starts. */
  function Expand(s: string, p: string, d: string, q: string, e: string): (r: string)
    requires |p| > 0 && |q| > 0
    ensures !Occurs(p, s) && !Occurs(q, s) ==> r == s
    decreases |s|
  {
    if |s| == 0 then []
    else if p <= s then d + Expand(s[|p|..], p, d, q, e)
    else if q <= s then e + Expand(s[|q|..], p, d, q, e)
    else [s[0]] + Expand(s[1..], p, d, q, e)
  }

  /** A placeholder passes untouched through the replace of a different placeholder. */
  lemma PlaceholderSurvives(q: string, y: string, p: string, d: string)
    requires IsPlaceholder(p) && IsPlaceholder(q) && p != q
    ensures ReplaceAll(q + y, p, d) == q + ReplaceAll(y, p, d)
  {
    assert p[1] != q[1] by {
      assert p == ['{', p[1], '}'] && q == ['{', q[1], '}'];
    }
    assert (q + y)[1] == q[1];
    assert (q + y)[1..] == q[1..] + y;
    ReplaceAllSkips(q[1..], y, p, d);
  }

  /**
   * After replacing `p` by a decimal, the text starts with a placeholder `q`
   * exactly when the original did and `q` is not the replaced one.
   */
  lemma StartsWithAfterReplace(x: string, p: string, d: string, q: string)
    requires IsPlaceholder(p) && IsPlaceholder(q) && IsDecimal(d)
    ensures q <= ReplaceAll(x, p, d) <==> q <= x && q != p
  {
    var r := ReplaceAll(x, p, d);
    if |x| == 0 {
    } else if p <= x {
      assert r[0] == d[0];
      assert q <= x ==> q == p by {
        if q <= x { assert q == x[..3] == p; }
      }
    } else {
      var x1 := x[1..];
      assert r == [x[0]] + ReplaceAll(x1, p, d);
      if |x1| == 0 {
      } else if p <= x1 {
        assert r[1] == d[0];
        assert x[1] == '{';
      } else {
        var x2 := x1[1..];
        assert r == [x[0], x1[0]] + ReplaceAll(x2, p, d);
        if |x2| == 0 {
        } else if p <= x2 {
          assert r[2] == d[0];
          assert x[2] == '{';
        } else {
          assert r[..3] == x[..3];
          assert q <= x && q == p ==> p <= x;
        }
      }
    }
  }

  /** No occurrence of a placeholder survives its own replace by a decimal. */
  lemma {:induction false} NoneLeft(x: string, p: string, d: string)
    requires IsPlaceholder(p) && IsDecimal(d)
    ensures !Occurs(p, ReplaceAll(x, p, d))
    decreases |x|
  {
    var r := ReplaceAll(x, p, d);
    StartsWithAfterReplace(x, p, d, p);
    if |x| == 0 {
    } else if p <= x {
      NoneLeft(x[3..], p, d);
      assert r[1..] == d[1..] + ReplaceAll(x[3..], p, d);
      assert AllDigits(d[1..]) by {
        forall i | 0 <= i < |d[1..]| ensures IsDigit(d[1..][i]) { assert d[1..][i] == d[i + 1]; }
      }
      DigitsExclude(d[1..], p[0]);
      if Occurs(p, r[1..]) {
        OccursSkips(p, d[1..], ReplaceAll(x[3..], p, d));
      }
    } else {
      NoneLeft(x[1..], p, d);
      assert r[1..] == ReplaceAll(x[1..], p, d);
    }
  }

  /** A decimal holds no `{`, so a replace scans over it. */
  lemma DecimalSkips(d: string, y: string, q: string, e: string)
    requires IsDecimal(d) && IsPlaceholder(q)
    ensures ReplaceAll(d + y, q, e) == d + ReplaceAll(y, q, e)
  {
    DigitsExclude(d, q[0]);
    ReplaceAllSkips(d, y, q, e);
  }

  /** Replacing `p` and then `q` is the simultaneous substitution. */
  lemma {:induction false} SequentialIsSimultaneous(s: string, p: string, d: string, q: string, e: string)
    requires IsPlaceholder(p) && IsPlaceholder(q) && p != q
    requires IsDecimal(d) && IsDecimal(e)
    ensures ReplaceAll(ReplaceAll(s, p, d), q, e) == Expand(s, p, d, q, e)
    decreases |s|
  {
    if |s| == 0 {
    } else if p <= s {
      SequentialIsSimultaneous(s[3..], p, d, q, e);
      DecimalSkips(d, ReplaceAll(s[3..], p, d), q, e);
    } else if q <= s {
      SequentialIsSimultaneous(s[3..], p, d, q, e);
      assert s == q + s[3..];
      PlaceholderSurvives(q, s[3..], p, d);
      var y := ReplaceAll(s[3..], p, d);
      assert (q + y)[3..] == y;
    } else {
      SequentialIsSimultaneous(s[1..], p, d, q, e);
      StartsWithAfterReplace(s, p, d, q);
      var x := ReplaceAll(s, p, d);
      assert x == [s[0]] + ReplaceAll(s[1..], p, d);
      assert x[1..] == ReplaceAll(s[1..], p, d);
    }
  }

  /** At any position at most one of two distinct placeholders starts. */
  lemma {:induction false} ExpandSymmetric(s: string, p: string, d: string, q: string, e: string)
    requires IsPlaceholder(p) && IsPlaceholder(q) && p != q
    ensures Expand(s, p, d, q, e) == Expand(s, q, e, p, d)
    decreases |s|
  {
    if |s| == 0 {
    } else if p <= s {
      assert p[1] != q[1] by {
        assert p == ['{', p[1], '}'] && q == ['{', q[1], '}'];
      }
      assert s[1] == p[1];
      ExpandSymmetric(s[3..], p, d, q, e);
    } else if q <= s {
      ExpandSymmetric(s[3..], p, d, q, e);
    } else {
      ExpandSymmetric(s[1..], p, d, q, e);
    }
  }

  /** Substituting the height before the width gives the same URL. */
  lemma WhOrderIrrelevant(url: string, w: U32, h: U32)
    ensures Wh(url, w, h)
         == ReplaceAll(ReplaceAll(url, HeightPlaceholder, NatToString(h)), WidthPlaceholder, NatToString(w))
  {
    var dw, dh := NatToString(w), NatToString(h);
    SequentialIsSimultaneous(url, WidthPlaceholder, dw, HeightPlaceholder, dh);
    SequentialIsSimultaneous(url, HeightPlaceholder, dh, WidthPlaceholder, dw);
    ExpandSymmetric(url, WidthPlaceholder, dw, HeightPlaceholder, dh);
  }

  /** A URL without placeholders comes back unchanged. */
  lemma WhWithoutPlaceholders(url: string, w: U32, h: U32)
    requires !Occurs(WidthPlaceholder, url) && !Occurs(HeightPlaceholder, url)
    ensures Wh(url, w, h) == url
  {
    ReplaceAllAbsent(url, WidthPlaceholder, NatToString(w));
    ReplaceAllAbsent(url, HeightPlaceholder, NatToString(h));
  }

  /** Every placeholder is replaced: neither `{w}` nor `{h}` remains. */
  lemma WhLeavesNoPlaceholder(url: string, w: U32, h: U32)
    ensures !Occurs(WidthPlaceholder, Wh(url, w, h))
    ensures !Occurs(HeightPlaceholder, Wh(url, w, h))
  {
    NoneLeft(ReplaceAll(url, WidthPlaceholder, NatToString(w)), HeightPlaceholder, NatToString(h));
    WhOrderIrrelevant(url, w, h);
    NoneLeft(ReplaceAll(url, HeightPlaceholder, NatToString(h)), WidthPlaceholder, NatToString(w));
  }

  /** The one placeholder `p` between brace-free `a` and `b` is replaced by `d`. */
  lemma ReplaceOne(a: string, p: string, b: string, d: string)
    requires IsPlaceholder(p) && '{' !in a && '{' !in b
    ensures ReplaceAll(a + p + b, p, d) == a + d + b
  {
    assert a + p + b == a + (p + b);
    ReplaceAllSkips(a, p + b, p, d);
    assert (p + b)[3..] == b;
    ReplaceAllSkips(b, [], p, d);
    assert b + [] == b;
  }

  /** A template with one `{w}` and one `{h}` around brace-free text. */
  lemma WhFillsBoth(prefix: string, mid: string, suffix: string, w: U32, h: U32)
    requires '{' !in prefix && '{' !in mid && '{' !in suffix
    ensures Wh(prefix + WidthPlaceholder + mid + HeightPlaceholder + suffix, w, h)
         == prefix + NatToString(w) + mid + NatToString(h) + suffix
  {
    var dw, dh := NatToString(w), NatToString(h);
    var url := prefix + WidthPlaceholder + mid + HeightPlaceholder + suffix;
    var tail := mid + HeightPlaceholder + suffix;
    assert ReplaceAll(url, WidthPlaceholder, dw) == prefix + dw + tail by {
      assert url == prefix + (WidthPlaceholder + tail);
      ReplaceAllSkips(prefix, WidthPlaceholder + tail, WidthPlaceholder, dw);
      assert (WidthPlaceholder + tail)[3..] == tail;
      assert tail == mid + (HeightPlaceholder + suffix);
      ReplaceAllSkips(mid, HeightPlaceholder + suffix, WidthPlaceholder, dw);
      PlaceholderSurvives(HeightPlaceholder, suffix, WidthPlaceholder, dw);
      ReplaceAllSkips(suffix, [], WidthPlaceholder, dw);
      assert suffix + [] == suffix;
    }
    var head := prefix + dw + mid;
    assert prefix + dw + tail == head + HeightPlaceholder + suffix;
    DigitsExclude(dw, '{');
    ReplaceOne(head, HeightPlaceholder, suffix, dh);
  }

  /**
   * The artwork URL "https://ex/{w}x{h}.jpg" at 100 by 200. The literal pieces
   * are passed in so that the solver does not unroll `ReplaceAll` over one
   * literal character by character.
   */
  lemma WhExampleUrl(url: string, prefix: string, mid: string, suffix: string)
    requires prefix == "https://ex/" && mid == "x" && suffix == ".jpg"
    requires url == prefix + "{w}" + mid + "{h}" + suffix
    ensures Wh(url, 100, 200) == prefix + "100" + mid + "200" + suffix
  {
    WhFillsBoth(prefix, mid, suffix, 100, 200);
    RenderExample();
  }

  lemma RenderExample()
    ensures NatToString(100) == "100" && NatToString(200) == "200"
  {
  }

  lemma WhExampleRepeated()
    ensures Wh("{w}{w}", 5, 0) == "55"
  {
    var d := NatToString(5);
    assert d == "5";
    var s: string := "{w}{w}";
    assert WidthPlaceholder <= s && s[3..] == WidthPlaceholder;
    assert WidthPlaceholder <= s[3..] && s[3..][3..] == [];
    assert ReplaceAll(s, WidthPlaceholder, d) == "55";
    assert "55"[1..] == "5";
    assert ReplaceAll("55", HeightPlaceholder, NatToString(0)) == "55";
  }

}
