/** Escaping undone: which values come back from serialising, escaping and unescaping
    (shmdata/type.cpp, get_serialized_string_value, escape, unescape). */
module TypeEscape {
  import opened TypeText

  // ---------------------------------------------------------------- which values survive

  /** Encoded, x begins with two underscores. */
  predicate BeginsPair(x: string) {
    "," <= x || "=" <= x || "__" <= x || "_," <= x || "_=" <= x
  }

  predicate BeginsPairEq(x: string) {
    "=" <= x || "__" <= x || "_=" <= x
  }

  /** Letters of v that the characters around them complete to a comma placeholder. */
  predicate AmbiguousComa(v: string) {
    ("__COMA" <= v && BeginsPair(v[6..]))
    || ("=COMA" <= v && BeginsPair(v[5..]))
    || ("=_COMA" <= v && BeginsPair(v[6..]))
  }

  predicate AmbiguousEqual(v: string) {
    "__EQUAL" <= v && BeginsPairEq(v[7..])
  }

  /** Nothing anywhere in v reads as a placeholder once v is encoded. */
  predicate Unambiguous(v: string)
    decreases |v|
  {
    v == [] || (!AmbiguousComa(v) && !AmbiguousEqual(v) && Unambiguous(v[1..]))
  }

  predicate Clean(v: string) {
    '"' !in v && Unambiguous(v)
  }

  // ---------------------------------------------------------------- replacement, step by step

  lemma {:induction false} Passes(a: string, x: string, pat: string, rep: string)
    requires pat != [] && forall i :: 0 <= i < |a| ==> a[i] != pat[0]
    ensures ReplaceAll(a + x, pat, rep) == a + ReplaceAll(x, pat, rep)
    decreases |a|
  {
    if a == [] {
      assert a + x == x;
    } else {
      assert (a + x)[1..] == a[1..] + x;
      Passes(a[1..], x, pat, rep);
      if |pat| <= |a + x| {
        assert (a + x)[..|pat|][0] == a[0];
      }
      assert ReplaceAll(a + x, pat, rep) == [a[0]] + ReplaceAll(a[1..] + x, pat, rep) by {
        if |a + x| < |pat| {
          assert ReplaceAll(a[1..] + x, pat, rep) == a[1..] + x;
        }
      }
    }
  }

  lemma Hits(x: string, pat: string, rep: string)
    requires pat != []
    ensures ReplaceAll(pat + x, pat, rep) == rep + ReplaceAll(x, pat, rep)
  {
    assert (pat + x)[..|pat|] == pat && (pat + x)[|pat|..] == x;
  }

  lemma Misses(s: string, pat: string, rep: string)
    requires pat != [] && s != [] && !(pat <= s)
    ensures ReplaceAll(s, pat, rep) == [s[0]] + ReplaceAll(s[1..], pat, rep)
  {
    if |s| < |pat| {
      assert s == [s[0]] + s[1..];
    }
  }

  lemma FirstChar(s: string, pat: string, rep: string)
    requires pat != [] && s != [] && rep != []
    ensures ReplaceAll(s, pat, rep) != []
    ensures ReplaceAll(s, pat, rep)[0] == if pat <= s then rep[0] else s[0]
  {
    if !(pat <= s) {
      Misses(s, pat, rep);
    }
  }

  /** Single characters are replaced one by one. */
  lemma {:induction false} CharConcat(a: string, b: string, c: char, rep: string)
    ensures ReplaceAll(a + b, [c], rep) == ReplaceAll(a, [c], rep) + ReplaceAll(b, [c], rep)
    decreases |a|
  {
    if a == [] {
      assert a + b == b;
    } else {
      assert (a + b)[1..] == a[1..] + b;
      CharConcat(a[1..], b, c, rep);
    }
  }

  lemma {:induction false} CharAbsent(a: string, c: char, rep: string)
    requires c !in a
    ensures ReplaceAll(a, [c], rep) == a
    decreases |a|
  {
    if a != [] {
      CharAbsent(a[1..], c, rep);
    }
  }

  lemma {:induction false} CharGone(a: string, c: char)
    ensures c !in ReplaceAll(a, [c], "")
    decreases |a|
  {
    if a != [] {
      CharGone(a[1..], c);
    }
  }

  /** Replacements that do not write c do not introduce it. */
  lemma {:induction false} StaysAbsent(a: string, pat: string, rep: string, c: char)
    requires pat != [] && c !in a && c !in rep
    ensures c !in ReplaceAll(a, pat, rep)
    decreases |a|
  {
    if |a| >= |pat| {
      if a[..|pat|] == pat {
        StaysAbsent(a[|pat|..], pat, rep, c);
      } else {
        StaysAbsent(a[1..], pat, rep, c);
      }
    }
  }

  // ---------------------------------------------------------------- character-wise encodings

  /** Parentheses escaped, commas and equals signs written as given. */
  function EncChar(coma: string, equal: string, c: char): string {
    if c == ',' then coma else if c == '=' then equal
    else if c == '(' || c == ')' then ['\\', c] else [c]
  }

  function Enc(coma: string, equal: string, v: string): string
    decreases |v|
  {
    if v == [] then [] else EncChar(coma, equal, v[0]) + Enc(coma, equal, v[1..])
  }

  /** What Serialize writes, quotes aside. */
  function Ser(v: string): string {
    Enc("\\,", "\\=", v)
  }

  /** What is left of it after Escape. */
  function Full(v: string): string {
    Enc(COMA, EQUAL, v)
  }

  lemma SerializeChar(c: char)
    ensures ReplaceAll(ReplaceAll(ReplaceAll(ReplaceAll([c], ",", "\\,"), "=", "\\="), "(", "\\("), ")", "\\)")
         == EncChar("\\,", "\\=", c)
  {
    var a := ReplaceAll([c], ",", "\\,");
    assert [c] == [c] + [];
    if c == ',' {
      Hits("", ",", "\\,");
      assert "," + "" == [c] && "\\," + "" == "\\,";
      CharAbsent("\\,", '=', "\\=");
      CharAbsent("\\,", '(', "\\(");
      CharAbsent("\\,", ')', "\\)");
    } else {
      CharAbsent([c], ',', "\\,");
      if c == '=' {
        Hits("", "=", "\\=");
        assert "=" + "" == [c] && "\\=" + "" == "\\=";
        CharAbsent("\\=", '(', "\\(");
        CharAbsent("\\=", ')', "\\)");
      } else {
        CharAbsent([c], '=', "\\=");
        if c == '(' {
          Hits("", "(", "\\(");
          assert "(" + "" == [c] && "\\(" + "" == "\\(";
          CharAbsent("\\(", ')', "\\)");
        } else {
          CharAbsent([c], '(', "\\(");
          if c == ')' {
            Hits("", ")", "\\)");
            assert ")" + "" == [c] && "\\)" + "" == "\\)";
          } else {
            CharAbsent([c], ')', "\\)");
          }
        }
      }
    }
  }

  /** The four replacements of `get_serialized_string_value`, character by character. */
  lemma {:induction false} SerializeIsSer(v: string)
    ensures ReplaceAll(ReplaceAll(ReplaceAll(ReplaceAll(v, ",", "\\,"), "=", "\\="), "(", "\\("), ")", "\\)") == Ser(v)
    decreases |v|
  {
    if v != [] {
      var c, w := [v[0]], v[1..];
      assert v == c + w;
      SerializeChar(v[0]);
      SerializeIsSer(w);
      CharConcat(c, w, ',', "\\,");
      var c1, w1 := ReplaceAll(c, ",", "\\,"), ReplaceAll(w, ",", "\\,");
      CharConcat(c1, w1, '=', "\\=");
      var c2, w2 := ReplaceAll(c1, "=", "\\="), ReplaceAll(w1, "=", "\\=");
      CharConcat(c2, w2, '(', "\\(");
      CharConcat(ReplaceAll(c2, "(", "\\("), ReplaceAll(w2, "(", "\\("), ')', "\\)");
    }
  }

  // ---------------------------------------------------------------- Escape on an encoded value

  lemma EncFirst(coma: string, equal: string, v: string)
    requires coma != [] && equal != [] && v != []
    ensures Enc(coma, equal, v) != []
    ensures Enc(coma, equal, v)[0]
         == if v[0] == ',' then coma[0] else if v[0] == '=' then equal[0]
            else if v[0] == '(' || v[0] == ')' then '\\' else v[0]
  {
  }

  /** A backslash before something that is not c: the two-character pattern starts later. */
  lemma BackslashMisses(y: string, c: char, rep: string)
    requires y == [] || y[0] != c
    ensures ReplaceAll(['\\'] + y, ['\\', c], rep) == ['\\'] + ReplaceAll(y, ['\\', c], rep)
  {
    var s := ['\\'] + y;
    assert s[1..] == y;
    assert |s| < 2 || s[1] != c;
    assert ['\\', c][1] == c;
    Misses(s, ['\\', c], rep);
  }

  /** A code that the two-character pattern `\d` passes over. */
  predicate Immune(code: string, d: char, y: string) {
    (forall i :: 0 <= i < |code| ==> code[i] != '\\')
    || (|code| == 2 && code[0] == '\\' && code[1] != '\\' && code[1] != d)
    || (code == ['\\'] && (y == [] || y[0] != d))
  }

  lemma PassesCode(code: string, d: char, y: string, rep: string)
    requires Immune(code, d, y)
    ensures ReplaceAll(code + y, ['\\', d], rep) == code + ReplaceAll(y, ['\\', d], rep)
  {
    if forall i :: 0 <= i < |code| ==> code[i] != '\\' {
      Passes(code, y, ['\\', d], rep);
    } else if code == ['\\'] {
      BackslashMisses(y, d, rep);
    } else {
      var tail := [code[1]] + y;
      assert code + y == ['\\'] + tail;
      BackslashMisses(tail, d, rep);
      Passes([code[1]], y, ['\\', d], rep);
      assert ['\\'] + ([code[1]] + ReplaceAll(y, ['\\', d], rep)) == code + ReplaceAll(y, ['\\', d], rep);
    }
  }

  /** Escaping the commas; x must not begin with a comma right after a final backslash. */
  lemma {:induction false} EscapeComas(v: string, x: string, coma: string)
    requires v == [] || v[|v| - 1] != '\\' || x == [] || x[0] != ','
    ensures ReplaceAll(Ser(v) + x, ['\\', ','], coma) == Enc(coma, "\\=", v) + ReplaceAll(x, ['\\', ','], coma)
    decreases |v|
  {
    if v == [] {
      assert Ser(v) + x == x;
    } else {
      var w := v[1..];
      var y := Ser(w) + x;
      EscapeComas(w, x, coma);
      var code := EncChar("\\,", "\\=", v[0]);
      assert Ser(v) + x == code + y;
      if v[0] == ',' {
        Hits(y, ['\\', ','], coma);
      } else {
        assert w != [] ==> y[0] != ',';
        PassesCode(code, ',', y, coma);
      }
      EncShift(coma, "\\=", v, ReplaceAll(x, ['\\', ','], coma));
    }
  }

  lemma EncShift(coma: string, equal: string, v: string, x: string)
    requires v != []
    ensures Enc(coma, equal, v) + x == EncChar(coma, equal, v[0]) + (Enc(coma, equal, v[1..]) + x)
  {
  }

  lemma {:induction false} EscapeEquals(v: string, x: string, coma: string, code: string, equal: string)
    requires coma != [] && '\\' !in coma && coma[0] != '=' && code == ['\\', '=']
    requires v == [] || v[|v| - 1] != '\\' || x == [] || x[0] != '='
    ensures ReplaceAll(Enc(coma, code, v) + x, code, equal) == Enc(coma, equal, v) + ReplaceAll(x, code, equal)
    decreases |v|
  {
    if v == [] {
      assert Enc(coma, code, v) + x == x;
    } else {
      var w := v[1..];
      var y := Enc(coma, code, w) + x;
      EscapeEquals(w, x, coma, code, equal);
      EncShift(coma, code, v, x);
      if v[0] == '=' {
        Hits(y, code, equal);
      } else {
        if w != [] {
          EncFirst(coma, code, w);
        }
        PassesCode(EncChar(coma, code, v[0]), '=', y, equal);
      }
      EncShift(coma, equal, v, ReplaceAll(x, code, equal));
    }
  }
}
