/** The type parser of the Python wrapper (wrappers/python/pyshmdata.cpp, Reader_parse_datatype)
    beside the one of the library. */
module PyDatatype {
  import opened TypeText
  import opened TypeEscape
  import opened TypeDocument
  import opened TypeRoundTrip
  import opened Wrappers

  /** A fraction is divided as floats in the source; here it keeps its text. */
  datatype PyValue = PyInt(n: int) | PyStr(s: string) | PyFraction(text: string)

  type PyDict = map<string, PyValue>

  // ---------------------------------------------------------------- what it computes

  function RemoveSpaces(s: string): string {
    ReplaceAll(s, [' '], "")
  }

  /** `std::stoi`; None when it throws. */
  function Stoi(s: string): Option<int> {
    var t := s[SpaceRun(s)..];
    var negative := t != [] && t[0] == '-';
    var u := if t != [] && (t[0] == '-' || t[0] == '+') then t[1..] else t;
    var run := DigitRun(u);
    var n: int := ValueOf(u[..run]);
    var r := if negative then -n else n;
    if run == 0 || r < INT_MIN || INT_MAX < r then None else Some(r)
  }

  /** `val.substr(open + 1, close - 1)`: the second argument is a length, and wraps at 0. */
  function TypeOf(val: string, open: nat, close: nat): string
    requires open < |val|
  {
    var rest := val[open + 1..];
    if close == 0 || close - 1 > |rest| then rest else rest[..close - 1]
  }

  /** `val.replace(open, close - open + 1, "")`: to the end when the length wraps. */
  function Without(val: string, open: nat, close: nat): string
    requires open < |val| && close < |val|
  {
    if close + 1 < open then val[..open]
    else if close + 1 == open then val
    else val[..open] + val[close + 1..]
  }

  /** `Py_BuildValue("I", n)`: the int is taken as unsigned. */
  function AsUnsigned(n: int): int {
    if n < 0 then n + 0x1_0000_0000 else n
  }

  function PyValueOf(val: string): Option<PyValue> {
    var open, close := IndexOf(val, '('), IndexOf(val, ')');
    if open == |val| || close == |val| then Some(PyStr(val))
    else if TypeOf(val, open, close) == "int" then
      match Stoi(Without(val, open, close))
      case None => None
      case Some(n) => Some(PyInt(AsUnsigned(n)))
    else if TypeOf(val, open, close) == "fraction" then Some(PyFraction(Without(val, open, close)))
    else Some(PyStr(Without(val, open, close)))
  }

  function PyPiece(dict: PyDict, piece: string): Option<PyDict> {
    var i := IndexOf(piece, '=');
    if i == |piece| then Some(dict["type" := PyStr(piece)])
    else match PyValueOf(piece[i + 1..])
      case None => None
      case Some(value) =>
        // The key of a piece that begins with a space loses it, and keeps the equals sign.
        Some(dict[if piece[0] == ' ' then piece[1..i + 1] else piece[..i] := value])
  }

  function PyAll(dict: PyDict, s: string): Option<PyDict>
    decreases |s|
  {
    if s == [] then Some(dict)
    else
      var i := IndexOf(s, ',');
      match PyPiece(dict, s[..i])
      case None => None
      case Some(next) => PyAll(next, if i < |s| then s[i + 1..] else [])
  }

  function PyParse(s: string): Option<PyDict> {
    PyAll(map[], RemoveSpaces(s))
  }

  // ---------------------------------------------------------------- the program

  lemma SpaceRemoved(a: string, b: string)
    ensures RemoveSpaces(a + [' '] + b) == RemoveSpaces(a + b)
  {
    var s := [' '];
    Hits("", s, "");
    assert s + "" == s && RemoveSpaces("") == "" && "" + "" == "";
    CharConcat(a + s, b, ' ', "");
    CharConcat(a, s, ' ', "");
    CharConcat(a, b, ' ', "");
    assert RemoveSpaces(a) + "" == RemoveSpaces(a);
  }

  method ReadValue(given: string) returns (value: PyValue, threw: bool)
    ensures PyValueOf(given) == if threw then None else Some(value)
  {
    var val := given;
    var open, close := IndexOf(val, '('), IndexOf(val, ')');
    value, threw := PyStr(val), false;
    if open != |val| && close != |val| {
      var kind := TypeOf(val, open, close);
      val := Without(val, open, close);
      if kind == "int" {
        var n := Stoi(val);
        if n.None? {
          threw := true;
        } else {
          value := PyInt(AsUnsigned(n.value));
        }
      } else if kind == "fraction" {
        value := PyFraction(val);
      } else {
        value := PyStr(val);
      }
    }
  }

  /** The first loop. */
  method DeleteSpaces(typeDescr: string) returns (descr: string)
    ensures descr == RemoveSpaces(typeDescr)
  {
    descr := typeDescr;
    var spacePos := IndexOf(descr, ' ');
    while spacePos < |descr|
      invariant spacePos == IndexOf(descr, ' ')
      invariant RemoveSpaces(descr) == RemoveSpaces(typeDescr)
      decreases |descr|
    {
      SpaceRemoved(descr[..spacePos], descr[spacePos + 1..]);
      assert descr == descr[..spacePos] + [' '] + descr[spacePos + 1..];
      descr := descr[..spacePos] + descr[spacePos + 1..];
      spacePos := IndexOf(descr, ' ');
    }
    assert descr[..spacePos] == descr;
    CharAbsent(descr, ' ', "");
  }

  method AddPiece(given: PyDict, substr: string) returns (dict: PyDict, threw: bool)
    ensures PyPiece(given, substr) == if threw then None else Some(dict)
  {
    dict, threw := given, false;
    var equalPos := IndexOf(substr, '=');
    if equalPos == |substr| {
      dict := dict["type" := PyStr(substr)];
    } else {
      var value;
      value, threw := ReadValue(substr[equalPos + 1..]);
      if !threw {
        var key := if substr[0] == ' ' then substr[1..equalPos + 1] else substr[..equalPos];
        dict := dict[key := value];
      }
    }
  }

  method ReaderParseDatatype(typeDescr: string) returns (dict: PyDict, threw: bool)
    ensures PyParse(typeDescr) == if threw then None else Some(dict)
  {
    var descr := DeleteSpaces(typeDescr);
    dict, threw := map[], false;
    while descr != [] && !threw
      invariant PyParse(typeDescr) == if threw then None else PyAll(dict, descr)
      decreases |descr|
    {
      var substr: string;
      var commaPos := IndexOf(descr, ',');
      if commaPos == |descr| {
        substr := descr;
        assert descr[..commaPos] == descr;
        descr := [];
      } else {
        substr := descr[..commaPos];
        descr := descr[commaPos + 1..];
      }
      dict, threw := AddPiece(dict, substr);
    }
  }

  // ---------------------------------------------------------------- on printed types

  predicate PlainValue(v: string) {
    ' ' !in v && ',' !in v && '=' !in v && '(' !in v && ')' !in v
  }

  /** No spaces or escaped characters, no key the parser uses itself, no fraction. */
  predicate PyLegal(t: TypeDesc) {
    ' ' !in t.name && '=' !in t.name
    && (forall i :: 0 <= i < |t.props| ==> t.props[i].key != "type")
    && (forall i :: 0 <= i < |t.props| && t.props[i].value.StrV? ==> PlainValue(t.props[i].value.s))
    && (forall k <- t.strTypes :: t.strTypes[k] != "fraction")
  }

  predicate PlainProp(p: Prop, types: map<string, string>) {
    LegalProp(p, types) && (p.value.StrV? ==> PlainValue(p.value.s)) && TypeWord(p, types) != "fraction"
  }

  predicate PlainProps(props: seq<Prop>, types: map<string, string>) {
    forall i :: 0 <= i < |props| ==> PlainProp(props[i], types)
  }

  lemma {:induction false} PlainEnc(coma: string, equal: string, v: string)
    requires PlainValue(v)
    ensures Enc(coma, equal, v) == v
    decreases |v|
  {
    if v != [] {
      PlainEnc(coma, equal, v[1..]);
    }
  }

  lemma PlainBody(p: Prop)
    requires p.value.StrV? ==> PlainValue(p.value.s)
    ensures p.value.StrV? ==> Body(p) == p.value.s
    ensures ' ' !in Body(p) && ',' !in Body(p)
  {
    match p.value
    case IntV(n) =>
      IntPlain(n);
      var d := DigitsOf(if n < 0 then -n else n);
      forall i | 0 <= i < |d| ensures d[i] != ' ' {
        assert IsDigit(d[i]);
      }
    case StrV(s) =>
      SerializeIsSer(s);
      PlainEnc("\\,", "\\=", s);
  }

  /** A property without its spaces, as the Python parser cuts it out. */
  function PyText(p: Prop, types: map<string, string>): string {
    p.key + ['='] + Literal(TypeWord(p, types), Body(p))
  }

  function PyDoc(props: seq<Prop>, types: map<string, string>): string
    decreases |props|
  {
    if props == [] then [] else [','] + (PyText(props[0], types) + PyDoc(props[1..], types))
  }

  lemma NoSpaces(a: string, x: string)
    requires ' ' !in a
    ensures RemoveSpaces(a + x) == a + RemoveSpaces(x)
  {
    CharConcat(a, x, ' ', "");
    CharAbsent(a, ' ', "");
  }

  lemma PyTextShape(p: Prop, types: map<string, string>)
    requires PlainProp(p, types)
    ensures Head(p, types) + Body(p) == [','] + [' '] + PyText(p, types)
    ensures ' ' !in PyText(p, types) && ',' !in PyText(p, types) && PyText(p, types) != []
  {
    HeadPlain(p, types);
    TypeWordWord(p, types);
    PlainBody(p);
    var k, t := p.key, TypeWord(p, types);
    PieceText(k, t, Body(p));
    forall i | 0 <= i < |k| ensures k[i] != ' ' && k[i] != ',' {
      assert KeyChar(k[i]);
    }
    forall i | 0 <= i < |t| ensures t[i] != ' ' && t[i] != ',' {
      assert IsWord(t[i]);
    }
    assert ' ' !in Literal(t, Body(p)) && ',' !in Literal(t, Body(p));
    assert ([','] + HeadRest(p, types)) + Body(p) == [','] + (HeadRest(p, types) + Body(p));
  }

  lemma UnspaceStep(h: string, b: string, text: string, x: string)
    requires h + b == [','] + [' '] + text && ' ' !in text
    ensures RemoveSpaces(h + (b + x)) == [','] + (text + RemoveSpaces(x))
  {
    assert h + (b + x) == (h + b) + x;
    assert ([','] + [' '] + text) + x == [','] + [' '] + (text + x);
    assert [','] + (text + x) == ([','] + text) + x;
    SpaceRemoved([','], text + x);
    NoSpaces([','] + text, x);
    assert ([','] + text) + RemoveSpaces(x) == [','] + (text + RemoveSpaces(x));
  }

  lemma {:induction false} DocUnspaced(props: seq<Prop>, types: map<string, string>)
    requires PlainProps(props, types)
    ensures RemoveSpaces(Doc(props, types)) == PyDoc(props, types)
    decreases |props|
  {
    if props != [] {
      DocUnspaced(props[1..], types);
      PyTextShape(props[0], types);
      UnspaceStep(Head(props[0], types), Body(props[0]), PyText(props[0], types), Doc(props[1..], types));
    }
  }

  lemma StoiBack(n: int)
    requires INT_MIN <= n <= INT_MAX
    ensures Stoi(IntToString(n)) == Some(n)
  {
    var m: nat := if n < 0 then -n else n;
    var d := DigitsOf(m);
    DigitsBack(m);
    DigitRunAll(d);
    assert IsDigit(d[0]);
    assert d[..|d|] == d;
    var s := IntToString(n);
    assert SpaceRun(s) == 0 && s[0..] == s;
    if n < 0 {
      assert s[1..] == d;
    } else {
      assert s == d;
    }
  }

  lemma LiteralValue(word: string, body: string)
    requires Word(word)
    ensures PyValueOf(Literal(word, body))
         == if word == "int" then
              (match Stoi(body) case None => None case Some(n) => Some(PyInt(AsUnsigned(n))))
            else if word == "fraction" then Some(PyFraction(body)) else Some(PyStr(body))
  {
    var val := Literal(word, body);
    forall i | 0 <= i < |word| ensures word[i] != ')' {
      assert IsWord(word[i]);
    }
    IndexAt(['('] + word, ')', body);
    assert val == ['('] + word + [')'] + body;
    assert IndexOf(val, '(') == 0;
    assert val[1..][..|word|] == word;
    assert val[..0] + val[|word| + 2..] == body;
  }

  // ---------------------------------------------------------------- the dictionary

  function PyOf(v: Value): PyValue {
    match v
    case IntV(n) => PyInt(n)
    case StrV(s) => PyStr(s)
  }

  function DictOf(dict: PyDict, props: seq<Prop>): PyDict
    decreases |props|
  {
    if props == [] then dict else DictOf(dict[props[0].key := PyOf(props[0].value)], props[1..])
  }

  /** A property as the Python parser reads it. */
  function Unsigned(p: Prop): Prop {
    match p.value
    case IntV(n) => Prop(p.key, IntV(AsUnsigned(n)))
    case StrV(s) => p
  }

  function AllUnsigned(props: seq<Prop>): (r: seq<Prop>)
    ensures |r| == |props| && forall i :: 0 <= i < |props| ==> r[i] == Unsigned(props[i])
    decreases |props|
  {
    if props == [] then [] else [Unsigned(props[0])] + AllUnsigned(props[1..])
  }

  lemma PyTextRead(dict: PyDict, p: Prop, types: map<string, string>)
    requires PlainProp(p, types)
    ensures PyPiece(dict, PyText(p, types)) == Some(dict[p.key := PyOf(Unsigned(p).value)])
  {
    var rest := Literal(TypeWord(p, types), Body(p));
    forall i | 0 <= i < |p.key| ensures p.key[i] != '=' && p.key[i] != ' ' {
      assert KeyChar(p.key[i]);
    }
    IndexAt(p.key, '=', rest);
    var text := PyText(p, types);
    assert text[..|p.key|] == p.key && text[|p.key| + 1..] == rest && text[0] == p.key[0];
    TypeWordWord(p, types);
    PlainBody(p);
    LiteralValue(TypeWord(p, types), Body(p));
    if p.value.IntV? {
      StoiBack(p.value.n);
    }
  }

  lemma PyStep(dict: PyDict, a: string, b: string)
    requires a != [] && ',' !in a
    ensures PyAll(dict, a + ([','] + b))
         == match PyPiece(dict, a) case None => None case Some(next) => PyAll(next, b)
  {
    var s := a + [','] + b;
    assert a + ([','] + b) == s;
    IndexAt(a, ',', b);
    assert s[..|a|] == a && s[|a| + 1..] == b;
  }

  lemma PyLast(dict: PyDict, a: string)
    requires a != [] && ',' !in a
    ensures PyAll(dict, a) == PyPiece(dict, a)
  {
    IndexNone(a, ',');
    assert a[..|a|] == a;
  }

  lemma {:induction false} PyDocRead(dict: PyDict, a: string, next: PyDict, props: seq<Prop>, types: map<string, string>)
    requires a != [] && ',' !in a && PyPiece(dict, a) == Some(next)
    requires PlainProps(props, types)
    ensures PyAll(dict, a + PyDoc(props, types)) == Some(DictOf(next, AllUnsigned(props)))
    decreases |props|
  {
    if props == [] {
      assert a + [] == a;
      PyLast(dict, a);
    } else {
      var p, rest := props[0], props[1..];
      var text := PyText(p, types);
      PyTextShape(p, types);
      PyStep(dict, a, text + PyDoc(rest, types));
      PyTextRead(next, p, types);
      PyDocRead(next, text, next[p.key := PyOf(Unsigned(p).value)], rest, types);
      assert AllUnsigned(props)[1..] == AllUnsigned(rest);
    }
  }

  /** The Python parser reads back every printed type with plain values, ints as unsigned. */
  lemma PyParsePrint(t: TypeDesc)
    requires Legal(t) && PyLegal(t)
    ensures Print(t).Some?
    ensures PyParse(Print(t).value) == Some(DictOf(map["type" := PyStr(t.name)], AllUnsigned(t.props)))
  {
    EscapePrint(t);
    forall i | 0 <= i < |t.props| ensures PlainProp(t.props[i], t.strTypes) {
    }
    DocUnspaced(t.props, t.strTypes);
    NoSpaces(t.name, Doc(t.props, t.strTypes));
    IndexNone(t.name, '=');
    PyDocRead(map[], t.name, map["type" := PyStr(t.name)], t.props, t.strTypes);
  }

  // ---------------------------------------------------------------- agreement

  lemma {:induction false} DictKept(dict: PyDict, props: seq<Prop>, k: string)
    requires forall i :: 0 <= i < |props| ==> props[i].key != k
    ensures k in DictOf(dict, props) <==> k in dict
    ensures k in dict ==> DictOf(dict, props)[k] == dict[k]
    decreases |props|
  {
    if props != [] {
      DictKept(dict[props[0].key := PyOf(props[0].value)], props[1..], k);
    }
  }

  lemma {:induction false} DictAt(dict: PyDict, props: seq<Prop>, i: nat)
    requires Sorted(props) && i < |props|
    ensures props[i].key in DictOf(dict, props) && DictOf(dict, props)[props[i].key] == PyOf(props[i].value)
    decreases |props|
  {
    var next, rest := dict[props[0].key := PyOf(props[0].value)], props[1..];
    if i > 0 {
      assert rest[i - 1] == props[i];
      DictAt(next, rest, i - 1);
    } else {
      forall j | 0 <= j < |rest| ensures rest[j].key != props[0].key {
        assert rest[j] == props[j + 1];
        LessAsym(props[0].key, props[j + 1].key);
      }
      DictKept(next, rest, props[0].key);
    }
  }

  lemma {:induction false} DictSize(dict: PyDict, props: seq<Prop>)
    ensures |DictOf(dict, props)| <= |dict| + |props|
    ensures Sorted(props) && (forall i :: 0 <= i < |props| ==> props[i].key !in dict)
        ==> |DictOf(dict, props)| == |dict| + |props|
    decreases |props|
  {
    if props != [] {
      var next, rest := dict[props[0].key := PyOf(props[0].value)], props[1..];
      DictSize(next, rest);
      if Sorted(props) {
        forall j | 0 <= j < |rest| ensures rest[j].key != props[0].key {
          assert rest[j] == props[j + 1];
          LessAsym(props[0].key, props[j + 1].key);
        }
      }
    }
  }

  /** The two parsers read the same name and the same properties. */
  predicate Agree(text: string) {
    var back := Parse(text);
    back.Some? && PyParse(text) == Some(DictOf(map["type" := PyStr(back.value.name)], back.value.props))
  }

  predicate NoNegative(props: seq<Prop>) {
    forall i :: 0 <= i < |props| && props[i].value.IntV? ==> props[i].value.n >= 0
  }

  lemma UnsignedIff(props: seq<Prop>)
    requires forall i :: 0 <= i < |props| && props[i].value.IntV? ==> INT_MIN <= props[i].value.n <= INT_MAX
    ensures AllUnsigned(props) == props <==> NoNegative(props)
  {
    var r := AllUnsigned(props);
    if r == props {
      forall i | 0 <= i < |props| && props[i].value.IntV? ensures props[i].value.n >= 0 {
        assert r[i] == Unsigned(props[i]);
      }
    }
  }

  /** Dictionaries over the same sorted keys are equal only when the properties are. */
  lemma SameDict(dict: PyDict, a: seq<Prop>, b: seq<Prop>)
    requires Sorted(a) && |a| == |b| && forall i :: 0 <= i < |a| ==> a[i].key == b[i].key
    requires DictOf(dict, a) == DictOf(dict, b)
    ensures a == b
  {
    forall i | 0 <= i < |a| ensures a[i] == b[i] {
      DictAt(dict, a, i);
      DictAt(dict, b, i);
    }
  }

  lemma SameReading(props: seq<Prop>)
    ensures AllUnsigned(props) == AllReturned(props) <==> AllUnsigned(props) == props && AllReturned(props) == props
  {
    var u, r := AllUnsigned(props), AllReturned(props);
    if u == r {
      forall i | 0 <= i < |props| ensures u[i] == props[i] && r[i] == props[i] {
        assert u[i] == Unsigned(props[i]) && r[i] == Returned(props[i]);
      }
    }
  }

  lemma FewerKeys(name: string, props: seq<Prop>, other: string, fewer: seq<Prop>)
    requires Sorted(props) && (forall i :: 0 <= i < |props| ==> props[i].key != "type") && |fewer| < |props|
    ensures DictOf(map["type" := PyStr(name)], AllUnsigned(props)) != DictOf(map["type" := PyStr(other)], fewer)
  {
    DictSize(map["type" := PyStr(name)], AllUnsigned(props));
    DictSize(map["type" := PyStr(other)], fewer);
  }

  lemma DisagreeWhenLost(t: TypeDesc)
    requires Legal(t) && PyLegal(t) && !Separated(t.props)
    ensures Print(t).Some? && !Agree(Print(t).value)
  {
    PyParsePrint(t);
    SeparatorLost(t);
    var back := Parse(Print(t).value);
    if back.Some? {
      FewerKeys(t.name, t.props, back.value.name, back.value.props);
    }
  }

  lemma SameDictIff(dict: PyDict, props: seq<Prop>)
    requires Sorted(props)
    ensures DictOf(dict, AllUnsigned(props)) == DictOf(dict, AllReturned(props)) <==> AllUnsigned(props) == AllReturned(props)
  {
    if DictOf(dict, AllUnsigned(props)) == DictOf(dict, AllReturned(props)) {
      SameDict(dict, AllUnsigned(props), AllReturned(props));
    }
  }

  lemma AgreeWhenSeparated(t: TypeDesc)
    requires Legal(t) && PyLegal(t) && Separated(t.props)
    ensures Print(t).Some?
    ensures Agree(Print(t).value) <==> AllReturned(t.props) == t.props && AllUnsigned(t.props) == t.props
  {
    ParsePrint(t);
    PyParsePrint(t);
    SameReading(t.props);
    SameDictIff(map["type" := PyStr(t.name)], t.props);
  }

  /** The parsers agree on a printed type exactly when the library reads it back and no int
      is negative. */
  lemma Agreement(t: TypeDesc)
    requires Legal(t) && PyLegal(t)
    ensures Print(t).Some?
    ensures Agree(Print(t).value) <==> Survives(t) && NoNegative(t.props)
  {
    RoundTrip(t);
    if Separated(t.props) {
      AgreeWhenSeparated(t);
      ReturnedIff(t.props);
      forall i | 0 <= i < |t.props| && t.props[i].value.IntV? ensures INT_MIN <= t.props[i].value.n <= INT_MAX {
        assert LegalProp(t.props[i], t.strTypes);
      }
      UnsignedIff(t.props);
    } else {
      DisagreeWhenLost(t);
    }
  }
}
