/** The parts of a printed type as the constructor reads them back: integers, pieces,
    `key=(word)body` (shmdata/type.cpp). */
module TypeDocument {
  import opened TypeText
  import opened TypeEscape
  import opened TypeDecode
  import opened Wrappers

  // ---------------------------------------------------------------- integers

  predicate AllDigits(s: string) {
    forall i :: 0 <= i < |s| ==> IsDigit(s[i])
  }

  lemma {:induction false} DigitsBack(n: nat)
    ensures ValueOf(DigitsOf(n)) == n
  {
    var s := DigitsOf(n);
    if n < 10 {
      assert s[..0] == [] && s == [DigitChar(n)];
    } else {
      DigitsBack(n / 10);
      assert s[..|s| - 1] == DigitsOf(n / 10);
    }
  }

  lemma {:induction false} DigitRunAll(s: string)
    requires AllDigits(s)
    ensures DigitRun(s) == |s|
    decreases |s|
  {
    if s != [] {
      DigitRunAll(s[1..]);
    }
  }

  /** What `std::to_string` writes, the stream reads back, over the whole range of int. */
  lemma ReadIntBack(n: int)
    requires INT_MIN <= n <= INT_MAX
    ensures ReadInt(IntToString(n)) == n
  {
    var m: nat := if n < 0 then -n else n;
    var d := DigitsOf(m);
    DigitsBack(m);
    DigitRunAll(d);
    assert IsDigit(d[0]);
    assert d[..|d|] == d;
    var s := IntToString(n);
    assert SpaceRun(s) == 0 && s[0..] == s;
    if n < 0 {
      assert s[1..] == d;
    } else {
      assert s == d;
    }
  }

  // ---------------------------------------------------------------- splitting

  lemma {:induction false} IndexAt(a: string, c: char, b: string)
    requires c !in a
    ensures IndexOf(a + [c] + b, c) == |a|
    decreases |a|
  {
    if a != [] {
      assert (a + [c] + b)[1..] == a[1..] + [c] + b;
      IndexAt(a[1..], c, b);
    }
  }

  lemma {:induction false} IndexNone(a: string, c: char)
    requires c !in a
    ensures IndexOf(a, c) == |a|
    decreases |a|
  {
    if a != [] {
      IndexNone(a[1..], c);
    }
  }

  predicate NoSpaceLast(s: string) {
    s == [] || s[|s| - 1] != ' '
  }

  lemma SplitAt(a: string, b: string)
    requires ',' !in a && NoSpaceLast(a) && DropSpaces(b) != []
    ensures Split(a + [','] + b) == [a] + Split(DropSpaces(b))
  {
    var s := a + [','] + b;
    IndexAt(a, ',', b);
    assert s[..|a|] == a && s[|a| + 1..] == b;
  }

  lemma SplitLast(a: string)
    requires ',' !in a
    ensures Split(a) == [a]
  {
    IndexNone(a, ',');
  }

  /** Nothing but spaces follows the last comma. */
  predicate EndsInComma(s: string)
    decreases |s|
  {
    var i := IndexOf(s, ',');
    i < |s| && (DropSpaces(s[i + 1..]) == [] || EndsInComma(DropSpaces(s[i + 1..])))
  }

  /** There is one piece more than there are commas, unless the text ends in a comma. */
  lemma {:induction false} SplitCount(s: string)
    ensures |Split(s)| == multiset(s)[','] + if EndsInComma(s) then 0 else 1
    decreases |s|
  {
    var i := IndexOf(s, ',');
    if i == |s| {
      assert s[..i] == s;
      assert ',' !in multiset(s);
    } else {
      var b := s[i + 1..];
      assert s == s[..i] + [','] + b;
      assert multiset(s) == multiset(s[..i]) + multiset([',']) + multiset(b);
      assert ',' !in multiset(s[..i]);
      DropSpacesCount(b);
      if DropSpaces(b) != [] {
        SplitCount(DropSpaces(b));
      }
    }
  }

  lemma {:induction false} DropSpacesCount(s: string)
    ensures multiset(DropSpaces(s))[','] == multiset(s)[',']
    decreases |s|
  {
    if s != [] && s[0] == ' ' {
      DropSpacesCount(s[1..]);
      assert s == [s[0]] + s[1..];
      assert multiset(s) == multiset([s[0]]) + multiset(s[1..]);
    }
  }

  // ---------------------------------------------------------------- one piece

  predicate KeyChar(c: char) {
    IsWord(c) || c == '-'
  }

  predicate LegalKey(k: string) {
    k != [] && forall i :: 0 <= i < |k| ==> KeyChar(k[i])
  }

  predicate Word(t: string) {
    t != [] && forall i :: 0 <= i < |t| ==> IsWord(t[i])
  }

  lemma {:induction false} TrimNone(s: string)
    requires '=' !in s
    ensures TrimEquals(s) == s
    decreases |s|
  {
    if s != [] {
      var n := SpaceRun(s);
      assert n < |s| ==> s[n] in s;
      TrimNone(s[1..]);
    }
  }

  lemma {:induction false} TrimKey(key: string, rest: string)
    requires (forall i :: 0 <= i < |key| ==> KeyChar(key[i])) && '=' !in rest
    requires rest == [] || !IsSpace(rest[0])
    ensures TrimEquals(key + ['='] + rest) == key + ['='] + rest
    decreases |key|
  {
    var s := key + ['='] + rest;
    if key == [] {
      assert s[1..] == rest && SpaceRun(s) == 0 && SpaceRun(rest) == 0 && rest[0..] == rest;
      TrimNone(rest);
      assert s == ['='] + rest;
    } else {
      assert s[0] == key[0] && SpaceRun(s) == 0;
      assert s[1..] == key[1..] + ['='] + rest;
      TrimKey(key[1..], rest);
    }
  }

  lemma {:induction false} WordRunAt(t: string, b: string)
    requires forall i :: 0 <= i < |t| ==> IsWord(t[i])
    ensures WordRun(t + [')'] + b) == |t|
    decreases |t|
  {
    var s := t + [')'] + b;
    if t != [] {
      assert s[1..] == t[1..] + [')'] + b;
      WordRunAt(t[1..], b);
    }
  }

  /** `(word)body`. */
  function Literal(word: string, body: string): string {
    ['('] + word + [')'] + body
  }

  lemma LiteralFound(word: string, body: string)
    requires Word(word)
    ensures FindLiteral(Literal(word, body)) == Some(word)
    ensures Literal(word, body)[|word| + 2..] == body
  {
    var s := Literal(word, body);
    assert s[1..] == word + [')'] + body;
    WordRunAt(word, body);
    assert s[1..|word| + 1] == word;
  }

  lemma UnescapeParen(s: string)
    requires s != [] && s[0] == '('
    ensures Unescape(s) != [] && Unescape(s)[0] == '('
  {
    FirstChar(s, COMA, ",");
    var m := Comas(s);
    Misses(m, "\"", "");
    var q := ReplaceAll(m, "\"", "");
    FirstChar(q, EQUAL, "=");
    ParensFirst(ReplaceAll(q, EQUAL, "="));
  }

  /** What the constructor makes of `key=(word)body`. */
  function Understood(key: string, word: string, body: string): Piece {
    if word == "int" then Found(key, IntV(ReadInt(body)), None)
    else Found(key, StrV(Unescape(body)), Some(word))
  }

  lemma PieceRead(key: string, word: string, body: string)
    requires LegalKey(key) && Word(word) && '=' !in body
    ensures ParsePiece(key + ['='] + Literal(word, body)) == Understood(key, word, body)
  {
    var rest := Literal(word, body);
    var s := key + ['='] + rest;
    forall i | 0 <= i < |key| ensures key[i] != '=' {
      assert KeyChar(key[i]);
    }
    forall i | 0 <= i < |word| ensures word[i] != '=' {
      assert IsWord(word[i]);
    }
    assert '=' !in rest;
    TrimKey(key, rest);
    IndexAt(key, '=', rest);
    assert s[..|key|] == key && s[|key| + 1..] == rest;
    assert IsKeyValue(s) by {
      forall j | 0 <= j < |key| ensures IsWord(s[j]) || s[j] == '-' {
        assert KeyChar(key[j]) && s[j] == key[j];
      }
    }
    LiteralFound(word, body);
    UnescapeParen(rest);
    assert !IsIntegerText(Unescape(rest)) by {
      assert !IsDigit(Magnitude(Unescape(rest))[0]);
    }
  }
}
