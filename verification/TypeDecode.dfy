/** Unescape on an escaped value: exactly the unambiguous values come back
    (shmdata/type.cpp, unescape). */
module TypeDecode {
  import opened TypeText
  import opened TypeEscape

  // ---------------------------------------------------------------- prefixes of an encoding

  lemma SamePrefix(c: char, p: string, t: string)
    ensures [c] + p <= [c] + t <==> p <= t
  {
    assert ([c] + p)[1..] == p && ([c] + t)[1..] == t;
    if [c] + p <= [c] + t {
      assert ([c] + t)[..|p| + 1] == [c] + p;
      assert t[..|p|] == ([c] + t)[1..|p| + 1];
    }
  }

  predicate Upper(p: string) {
    forall i :: 0 <= i < |p| ==> 'A' <= p[i] <= 'Z'
  }

  /** Letters of a code appear in the encoding only where they are in the value. */
  lemma {:induction false} LetterPrefix(p: string, q: string, coma: string, equal: string, v: string)
    requires Upper(p) && coma != [] && equal != []
    requires !('A' <= coma[0] <= 'Z') && !('A' <= equal[0] <= 'Z')
    ensures p + q <= Enc(coma, equal, v) <==> p <= v && q <= Enc(coma, equal, v[|p|..])
    decreases |p|
  {
    if p == [] {
      assert p + q == q && v[0..] == v;
    } else if v != [] {
      EncFirst(coma, equal, v);
      var e := Enc(coma, equal, v);
      if p[0] == v[0] {
        var w := v[1..];
        assert e == [p[0]] + Enc(coma, equal, w);
        assert p + q == [p[0]] + (p[1..] + q);
        SamePrefix(p[0], p[1..] + q, Enc(coma, equal, w));
        LetterPrefix(p[1..], q, coma, equal, w);
        assert v == [p[0]] + w && p == [p[0]] + p[1..];
        SamePrefix(p[0], p[1..], w);
        if p <= v {
          assert w[|p| - 1..] == v[|p|..];
        }
      } else {
        assert (p + q)[0] == p[0] && e[0] != p[0];
      }
    }
  }

  /** coma and equal are codes like the placeholders: two underscores, then something else. */
  predicate Code(s: string) {
    |s| > 2 && s[0] == '_' && s[1] == '_' && s[2] != '_'
  }

  lemma PairPrefix(v: string, coma: string, equal: string)
    requires Code(coma) && Code(equal)
    ensures "__" <= Enc(coma, equal, v) <==> BeginsPair(v)
  {
    if v != [] {
      var e := Enc(coma, equal, v);
      if v[0] == '_' && |v| > 1 {
        EncFirst(coma, equal, v[1..]);
        assert e[1] == Enc(coma, equal, v[1..])[0];
      }
    }
  }

  lemma PairEqPrefix(v: string, equal: string)
    requires Code(equal)
    ensures "__" <= Enc(",", equal, v) <==> BeginsPairEq(v)
  {
    if v != [] {
      var e := Enc(",", equal, v);
      if v[0] == '_' && |v| > 1 {
        EncFirst(",", equal, v[1..]);
        assert e[1] == Enc(",", equal, v[1..])[0];
      }
    }
  }

  /** `COMA` and the start of another code. */
  predicate ComaTail(w: string) {
    "COMA" <= w && BeginsPair(w[4..])
  }

  lemma ComaTailPrefix(w: string)
    ensures "COMA__" <= Full(w) <==> ComaTail(w)
  {
    LetterPrefix("COMA", "__", COMA, EQUAL, w);
    assert "COMA" + "__" == "COMA__";
    if "COMA" <= w {
      PairPrefix(w[4..], COMA, EQUAL);
    }
  }

  predicate LateComaTail(w: string) {
    w != [] && w[0] == '_' && ComaTail(w[1..])
  }

  lemma LateComaTailPrefix(w: string)
    ensures "_COMA__" <= Full(w) <==> LateComaTail(w)
  {
    if w != [] {
      var f := Full(w);
      EncFirst(COMA, EQUAL, w);
      if w[0] == '_' {
        assert f == ['_'] + Full(w[1..]);
        assert "_COMA__" == ['_'] + "COMA__";
        SamePrefix('_', "COMA__", Full(w[1..]));
        ComaTailPrefix(w[1..]);
      } else if w[0] == ',' || w[0] == '=' {
        assert f[1] == '_';
      }
    }
  }

  /** AmbiguousComa, from the tails. */
  lemma AmbiguousComaIs(v: string)
    requires v != []
    ensures AmbiguousComa(v)
       <==> (v[0] == '_' && LateComaTail(v[1..])) || (v[0] == '=' && (ComaTail(v[1..]) || LateComaTail(v[1..])))
  {
    var w := v[1..];
    assert v == [v[0]] + w;
    assert "=COMA" == ['='] + "COMA" && "=_COMA" == ['='] + "_COMA" && "__COMA" == ['_'] + "_COMA";
    SamePrefix('=', "COMA", w);
    SamePrefix('=', "_COMA", w);
    SamePrefix('_', "_COMA", w);
    if "COMA" <= w {
      assert w[4..] == v[5..];
    }
    if w != [] {
      var x := w[1..];
      assert w == [w[0]] + x;
      assert "_COMA" == ['_'] + "COMA";
      SamePrefix('_', "COMA", x);
      if "COMA" <= x {
        assert x[4..] == v[6..];
      }
    }
  }

  // ---------------------------------------------------------------- the comma placeholders

  /** The first step of Unescape. */
  function Comas(s: string): string {
    ReplaceAll(s, COMA, ",")
  }

  lemma ComaAt(c: char, s: string)
    ensures COMA <= [c] + s <==> c == '_' && "_COMA__" <= s
  {
    assert COMA == ['_'] + "_COMA__";
    SamePrefix(c, "_COMA__", s);
    if c != '_' {
      assert ([c] + s)[0] != COMA[0];
    }
  }

  lemma ComasStep(c: char, s: string)
    ensures !(c == '_' && "_COMA__" <= s) ==> Comas([c] + s) == [c] + Comas(s)
    ensures c == '_' && "_COMA__" <= s ==> "," <= Comas([c] + s)
  {
    ComaAt(c, s);
    if c == '_' && "_COMA__" <= s {
      FirstChar([c] + s, COMA, ",");
    } else {
      Misses([c] + s, COMA, ",");
      assert ([c] + s)[1..] == s;
    }
  }

  lemma ComasPlain(c: char, w: string)
    requires c != ',' && c != '='
    ensures !AmbiguousComa([c] + w) ==> Comas(Full([c] + w)) == EncChar(",", EQUAL, c) + Comas(Full(w))
    ensures AmbiguousComa([c] + w) ==> c == '_' && "," <= Comas(Full([c] + w))
  {
    var v := [c] + w;
    AmbiguousComaIs(v);
    assert v[1..] == w;
    assert Full(v) == EncChar(COMA, EQUAL, c) + Full(w);
    if c == '(' || c == ')' {
      Passes(['\\', c], Full(w), COMA, ",");
    } else {
      assert EncChar(COMA, EQUAL, c) == [c];
      LateComaTailPrefix(w);
      ComasStep(c, Full(w));
    }
  }

  lemma ComasTwo(e: string)
    requires e != [] && e[0] != '_' && e[0] != 'C'
    ensures Comas(['_'] + (['_'] + e)) == ['_'] + (['_'] + Comas(e))
  {
    assert "_COMA__"[0] == '_' && "_COMA__"[1] == 'C';
    assert (['_'] + e)[1] == e[0];
    ComasStep('_', ['_'] + e);
    ComasStep('_', e);
  }

  lemma ComasLetters(a: string)
    ensures Comas("__EQUAL" + a) == "__EQUAL" + Comas(a)
  {
    var e := "EQUAL" + a;
    assert "__EQUAL" + a == ['_'] + (['_'] + e);
    ComasTwo(e);
    Passes("EQUAL", a, COMA, ",");
    assert "__EQUAL" + Comas(a) == ['_'] + (['_'] + ("EQUAL" + Comas(a)));
  }

  lemma ComasPair(s: string)
    ensures "COMA__" <= s ==> "," <= Comas(['_', '_'] + s)
    ensures !("COMA__" <= s) && "_COMA__" <= s ==> "_," <= Comas(['_', '_'] + s)
    ensures !("COMA__" <= s) && !("_COMA__" <= s) ==> Comas(['_', '_'] + s) == ['_', '_'] + Comas(s)
  {
    var b := ['_'] + s;
    assert ['_', '_'] + s == ['_'] + b;
    ComasStep('_', b);
    ComasStep('_', s);
    assert "_COMA__" == ['_'] + "COMA__";
    SamePrefix('_', "COMA__", s);
    assert ['_'] + (['_'] + Comas(s)) == ['_', '_'] + Comas(s);
  }

  lemma PrefixAfter(a: string, p: string, s: string)
    requires p <= s
    ensures a + p <= a + s
  {
    assert (a + s)[..|a + p|] == a + s[..|p|];
  }

  /** An equals placeholder under the comma replacement: its last two underscores may be taken. */
  lemma ComasEqual(s: string)
    ensures "COMA__" <= s ==> "__EQUAL" + "," <= Comas(EQUAL + s)
    ensures !("COMA__" <= s) && "_COMA__" <= s ==> "__EQUAL" + "_," <= Comas(EQUAL + s)
    ensures !("COMA__" <= s) && !("_COMA__" <= s) ==> Comas(EQUAL + s) == EQUAL + Comas(s)
  {
    var a := ['_', '_'] + s;
    assert EQUAL + s == "__EQUAL" + a;
    ComasLetters(a);
    ComasPair(s);
    if "COMA__" <= s {
      PrefixAfter("__EQUAL", ",", Comas(a));
    } else if "_COMA__" <= s {
      PrefixAfter("__EQUAL", "_,", Comas(a));
    } else {
      assert EQUAL + Comas(s) == "__EQUAL" + (['_', '_'] + Comas(s));
    }
  }

  lemma ComasFirst(v: string)
    requires v != []
    ensures Comas(Full(v)) != [] && Comas(Full(v))[0] != '(' && Comas(Full(v))[0] != ')'
  {
    EncFirst(COMA, EQUAL, v);
    FirstChar(Full(v), COMA, ",");
  }

  lemma ComasHead(v: string)
    requires v != []
    ensures !AmbiguousComa(v) ==> Comas(Full(v)) == EncChar(",", EQUAL, v[0]) + Comas(Full(v[1..]))
    ensures AmbiguousComa(v) && v[0] != '=' ==> v[0] == '_' && "," <= Comas(Full(v))
    ensures AmbiguousComa(v) && v[0] == '=' ==> "__EQUAL" + "," <= Comas(Full(v)) || "__EQUAL" + "_," <= Comas(Full(v))
  {
    var w := v[1..];
    assert v == [v[0]] + w;
    if v[0] == ',' {
      AmbiguousComaIs(v);
      Hits(Full(w), COMA, ",");
    } else if v[0] == '=' {
      AmbiguousComaIs(v);
      assert Full(v) == EQUAL + Full(w);
      ComasEqual(Full(w));
      ComaTailPrefix(w);
      LateComaTailPrefix(w);
    } else {
      ComasPlain(v[0], w);
    }
  }

  predicate NoComa(v: string)
    decreases |v|
  {
    v == [] || (!AmbiguousComa(v) && NoComa(v[1..]))
  }

  lemma {:induction false} ComasDecoded(v: string)
    requires NoComa(v)
    ensures Comas(Full(v)) == Enc(",", EQUAL, v)
    decreases |v|
  {
    if v != [] {
      ComasHead(v);
      ComasDecoded(v[1..]);
    }
  }

  // ---------------------------------------------------------------- the steps after the quotes

  function Parens(s: string): string {
    ReplaceAll(ReplaceAll(s, ['\\', '('], ['(']), ['\\', ')'], [')'])
  }

  function Tail(s: string): string {
    Parens(ReplaceAll(s, EQUAL, "="))
  }

  predicate NoParenFirst(y: string) {
    y != [] ==> y[0] != '(' && y[0] != ')'
  }

  lemma ParensFirst(s: string)
    requires s != [] && s[0] != '\\'
    ensures Parens(s) != [] && Parens(s)[0] == s[0]
  {
    FirstChar(s, ['\\', '('], ['(']);
    FirstChar(ReplaceAll(s, ['\\', '('], ['(']), ['\\', ')'], [')']);
  }

  lemma ParensHead(c: char, y: string)
    requires NoParenFirst(y)
    ensures Parens(EncChar(",", "=", c) + y) == [c] + Parens(y)
  {
    var r := ReplaceAll(y, ['\\', '('], ['(']);
    if y != [] {
      FirstChar(y, ['\\', '('], ['(']);
    }
    if c == '(' {
      Hits(y, ['\\', '('], ['(']);
      Passes(['('], r, ['\\', ')'], [')']);
    } else if c == ')' {
      PassesCode(['\\', ')'], '(', y, ['(']);
      Hits(r, ['\\', ')'], [')']);
    } else {
      assert EncChar(",", "=", c) == [c];
      PassesCode([c], '(', y, ['(']);
      PassesCode([c], ')', r, [')']);
    }
  }

  lemma EqualsFirst(y: string)
    requires NoParenFirst(y)
    ensures NoParenFirst(ReplaceAll(y, EQUAL, "="))
  {
    if y != [] {
      FirstChar(y, EQUAL, "=");
    }
  }

  /** One character of a value through the equals placeholders and the parentheses. */
  lemma TailHead(c: char, y: string)
    requires NoParenFirst(y)
    ensures c == '_' && EQUAL <= ['_'] + y ==> Tail(['_'] + y) != [] && Tail(['_'] + y)[0] == '='
    ensures !(c == '_' && EQUAL <= ['_'] + y) ==> Tail(EncChar(",", EQUAL, c) + y) == [c] + Tail(y)
  {
    var r := ReplaceAll(y, EQUAL, "=");
    EqualsFirst(y);
    if c == '_' && EQUAL <= ['_'] + y {
      FirstChar(['_'] + y, EQUAL, "=");
      ParensFirst(ReplaceAll(['_'] + y, EQUAL, "="));
    } else {
      EqualsHead(c, y);
      ParensHead(c, r);
    }
  }

  lemma EqualsHead(c: char, y: string)
    requires !(c == '_' && EQUAL <= ['_'] + y)
    ensures ReplaceAll(EncChar(",", EQUAL, c) + y, EQUAL, "=") == EncChar(",", "=", c) + ReplaceAll(y, EQUAL, "=")
  {
    if c == '=' {
      Hits(y, EQUAL, "=");
    } else if c == '_' {
      Misses(['_'] + y, EQUAL, "=");
      assert (['_'] + y)[1..] == y;
    } else {
      Passes(EncChar(",", EQUAL, c), y, EQUAL, "=");
    }
  }

  lemma TailFirst(y: string)
    requires y != [] && y[0] != '\\' && !(EQUAL <= y)
    ensures Tail(y) != [] && Tail(y)[0] == y[0]
  {
    FirstChar(y, EQUAL, "=");
    ParensFirst(ReplaceAll(y, EQUAL, "="));
  }

  lemma EqualTailAt(x: string)
    ensures "EQUAL__" <= Enc(",", EQUAL, x) <==> "EQUAL" <= x && BeginsPairEq(x[5..])
  {
    assert "EQUAL__" == "EQUAL" + "__";
    LetterPrefix("EQUAL", "__", ",", EQUAL, x);
    if "EQUAL" <= x {
      PairEqPrefix(x[5..], EQUAL);
    }
  }

  lemma LateEqualAt(w: string)
    ensures "_EQUAL__" <= Enc(",", EQUAL, w) <==> "_EQUAL" <= w && BeginsPairEq(w[6..])
  {
    var f := Enc(",", EQUAL, w);
    if w != [] && w[0] == '_' {
      var x := w[1..];
      assert w == ['_'] + x && f == ['_'] + Enc(",", EQUAL, x);
      assert "_EQUAL__" == ['_'] + "EQUAL__" && "_EQUAL" == ['_'] + "EQUAL";
      SamePrefix('_', "EQUAL__", Enc(",", EQUAL, x));
      SamePrefix('_', "EQUAL", x);
      EqualTailAt(x);
      if "EQUAL" <= x {
        assert x[5..] == w[6..];
      }
    } else if w != [] {
      EncFirst(",", EQUAL, w);
      if w[0] == '=' {
        assert f[1] == '_' && "_EQUAL__"[1] == 'E';
      }
    }
  }

  lemma EqualAt(w: string)
    ensures EQUAL <= ['_'] + Enc(",", EQUAL, w) <==> AmbiguousEqual(['_'] + w)
  {
    assert EQUAL == ['_'] + "_EQUAL__" && "__EQUAL" == ['_'] + "_EQUAL";
    SamePrefix('_', "_EQUAL__", Enc(",", EQUAL, w));
    SamePrefix('_', "_EQUAL", w);
    LateEqualAt(w);
    if "_EQUAL" <= w {
      assert w[6..] == (['_'] + w)[7..];
    }
  }

  // ---------------------------------------------------------------- the theorem

  lemma {:induction false} UnambiguousNoComa(v: string)
    requires Unambiguous(v)
    ensures NoComa(v)
    decreases |v|
  {
    if v != [] {
      UnambiguousNoComa(v[1..]);
    }
  }

  /** An encoded value with nothing quoted comes back exactly when it is unambiguous. */
  lemma {:induction false} DecodedIff(v: string)
    ensures Tail(Comas(Full(v))) == v <==> Unambiguous(v)
    decreases |v|
  {
    if v != [] {
      ComasHead(v);
      var w := v[1..];
      var y := Comas(Full(w));
      DecodedIff(w);
      if AmbiguousComa(v) {
        AmbiguousLost(v);
      } else {
        if w != [] {
          ComasFirst(w);
        }
        TailHead(v[0], y);
        if Unambiguous(w) {
          UnambiguousNoComa(w);
          ComasDecoded(w);
          if v[0] == '_' {
            EqualAt(w);
            assert ['_'] + w == v;
          }
        }
      }
    }
  }

  lemma AmbiguousLost(v: string)
    requires v != [] && AmbiguousComa(v)
    ensures Tail(Comas(Full(v))) != v
  {
    ComasHead(v);
    var s := Comas(Full(v));
    assert "__EQUAL" + "," <= s ==> s[7] == ',';
    assert "__EQUAL" + "_," <= s ==> s[8] == ',';
    TailFirst(s);
  }

  // ---------------------------------------------------------------- quotes

  /** The encoded value between the quotes Serialize gives it. */
  function Carried(v: string): string {
    if NeedsQuotes(Ser(v)) then "\"" + Full(v) + "\"" else Full(v)
  }

  lemma PrefixShort(pat: string, a: string, c: char)
    requires pat <= a + [c] && c !in pat
    ensures pat <= a
  {
    var s := a + [c];
    assert s[|a|] == c;
    assert pat == s[..|pat|];
    if pat != [] {
      var last := |pat| - 1;
      assert pat[last] in pat && pat[last] == s[last];
      assert last != |a|;
    }
    assert s[..|pat|] == a[..|pat|];
  }

  lemma {:induction false} TrailingPass(a: string, c: char, pat: string, rep: string)
    requires pat != [] && c !in pat
    ensures ReplaceAll(a + [c], pat, rep) == ReplaceAll(a, pat, rep) + [c]
    decreases |a|
  {
    var s := a + [c];
    if pat <= s {
      PrefixShort(pat, a, c);
      assert s[..|pat|] == a[..|pat|] && s[|pat|..] == a[|pat|..] + [c];
      TrailingPass(a[|pat|..], c, pat, rep);
    } else {
      Misses(s, pat, rep);
      if a != [] {
        assert s[1..] == a[1..] + [c];
        TrailingPass(a[1..], c, pat, rep);
        assert !(pat <= a) by {
          assert pat <= a ==> pat <= s;
        }
        Misses(a, pat, rep);
      } else {
        assert ReplaceAll([], pat, rep) == [];
      }
    }
  }

  lemma QuoteGone(s: string)
    ensures ReplaceAll(['"'] + s, ['"'], "") == ReplaceAll(s, ['"'], "") == ReplaceAll(s + ['"'], ['"'], "")
  {
    var q := ['"'];
    Hits(s, q, "");
    assert "" + ReplaceAll(s, q, "") == ReplaceAll(s, q, "");
    CharConcat(s, q, '"', "");
    Hits("", q, "");
    assert q + "" == q && ReplaceAll("", q, "") == "" && "" + "" == "";
    assert ReplaceAll(s, q, "") + "" == ReplaceAll(s, q, "");
  }

  lemma QuotesIgnored(f: string)
    ensures Unescape("\"" + f + "\"") == Unescape(f)
  {
    var g := f + ['"'];
    assert "\"" + f + "\"" == ['"'] + g;
    Passes(['"'], g, COMA, ",");
    TrailingPass(f, '"', COMA, ",");
    var m := Comas(f);
    QuoteGone(m + ['"']);
    QuoteGone(m);
  }

  lemma {:induction false} EncAbsent(c: char, coma: string, equal: string, v: string)
    requires c !in v && c != '\\' && c !in coma && c !in equal
    ensures c !in Enc(coma, equal, v)
    decreases |v|
  {
    if v != [] {
      EncAbsent(c, coma, equal, v[1..]);
    }
  }

  lemma QuotesGone(s: string)
    ensures '"' !in Unescape(s)
  {
    var a := ReplaceAll(Comas(s), "\"", "");
    CharGone(Comas(s), '"');
    StaysAbsent(a, EQUAL, "=", '"');
    var b := ReplaceAll(a, EQUAL, "=");
    StaysAbsent(b, "\\(", "(", '"');
    StaysAbsent(ReplaceAll(b, "\\(", "("), "\\)", ")", '"');
  }

  /** Escaping, then unescaping what was carried. */
  lemma CarriedIff(v: string)
    ensures Unescape(Carried(v)) == v <==> Clean(v)
  {
    QuotesIgnored(Full(v));
    if '"' in v {
      QuotesGone(Full(v));
    } else {
      EncAbsent('"', COMA, EQUAL, v);
      StaysAbsent(Full(v), COMA, ",", '"');
      CharAbsent(Comas(Full(v)), '"', "");
      DecodedIff(v);
    }
  }

  // ---------------------------------------------------------------- Escape on a serialised value

  /** x: what follows the value in the document. */
  lemma EscapeValue(v: string, x: string)
    requires x == [] || (x[0] != ',' && x[0] != '=') || v == [] || v[|v| - 1] != '\\'
    ensures Escape(Ser(v) + x) == Full(v) + Escape(x)
  {
    EscapeComas(v, x, COMA);
    var y := ReplaceAll(x, "\\,", COMA);
    if x != [] {
      FirstChar(x, "\\,", COMA);
    }
    EscapeEquals(v, y, COMA, "\\=", EQUAL);
  }

  lemma EscapePlain(a: string, x: string)
    requires '\\' !in a
    ensures Escape(a + x) == a + Escape(x)
  {
    Passes(a, x, "\\,", COMA);
    Passes(a, ReplaceAll(x, "\\,", COMA), "\\=", EQUAL);
  }

  lemma EscapeQuoted(s: string, f: string, x: string)
    requires Escape(s + (['"'] + x)) == f + Escape(['"'] + x)
    ensures Escape((['"'] + s + ['"']) + x) == (['"'] + f + ['"']) + Escape(x)
  {
    var q := ['"'];
    assert (q + s + q) + x == q + (s + (q + x));
    EscapePlain(q, s + (q + x));
    EscapePlain(q, x);
    assert (q + f + q) + Escape(x) == q + (f + (q + Escape(x)));
  }

  lemma EscapeSerialized(v: string, x: string)
    requires NeedsQuotes(Ser(v)) || x == [] || (x[0] != ',' && x[0] != '=') || v == [] || v[|v| - 1] != '\\'
    ensures Escape(Serialize(v) + x) == Carried(v) + Escape(x)
  {
    SerializeIsSer(v);
    if NeedsQuotes(Ser(v)) {
      EscapeValue(v, ['"'] + x);
      EscapeQuoted(Ser(v), Full(v), x);
    } else {
      EscapeValue(v, x);
    }
  }

  lemma Hidden(v: string)
    ensures ',' !in Carried(v) && '=' !in Carried(v)
  {
    FullHides(v);
  }

  lemma {:induction false} FullHides(v: string)
    ensures ',' !in Full(v) && '=' !in Full(v)
    decreases |v|
  {
    if v != [] {
      FullHides(v[1..]);
    }
  }

  /** The escaping lemma: a value comes back from its serialised form exactly when it is clean,
      and neither of its commas nor its equals signs can be seen by the splitter. */
  lemma EscapingUndone(v: string)
    ensures Unescape(Escape(Serialize(v))) == v <==> Clean(v)
    ensures ',' !in Escape(Serialize(v)) && '=' !in Escape(Serialize(v))
  {
    EscapeSerialized(v, "");
    assert Serialize(v) + "" == Serialize(v) && Carried(v) + Escape("") == Carried(v);
    CarriedIff(v);
    Hidden(v);
  }

  lemma WordAfter(p: string, q: string, v: string)
    ensures p + q <= v ==> |p| <= |v| && q <= v[|p|..]
  {
    if p + q <= v {
      assert v[..|p + q|] == p + q;
      assert v[|p|..][..|q|] == q;
    }
  }

  /** Values without quotes and without the words of the placeholders are clean. */
  lemma {:induction false} PlainIsClean(v: string)
    requires '"' !in v
    requires forall i :: 0 <= i <= |v| ==> !("COMA" <= v[i..]) && !("EQUAL" <= v[i..])
    ensures Clean(v)
    decreases |v|
  {
    if v != [] {
      var w := v[1..];
      forall i | 0 <= i <= |w| ensures !("COMA" <= w[i..]) && !("EQUAL" <= w[i..]) {
        assert w[i..] == v[i + 1..];
      }
      PlainIsClean(w);
      assert v[0..] == v;
      WordAfter("__", "COMA", v);
      WordAfter("=", "COMA", v);
      WordAfter("=_", "COMA", v);
      WordAfter("__", "EQUAL", v);
    }
  }

  /** Neighbouring placeholders overlap: the comma placeholder is found one place early. */
  lemma OverlapLost()
    ensures !Clean("=COMA,")
    ensures Unescape(Escape(Serialize("=COMA,"))) != "=COMA,"
  {
    var v := "=COMA,";
    assert v[5..] == ",";
    assert AmbiguousComa(v);
    EscapingUndone(v);
  }
}
