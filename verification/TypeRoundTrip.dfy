/** Parsing undoes printing, exactly when every string value is clean and no unquoted value
    hides the separator after it (shmdata/type.cpp, Type::Type and Type::str). */
module TypeRoundTrip {
  import opened TypeText
  import opened TypeEscape
  import opened TypeDecode
  import opened TypeDocument
  import opened Wrappers

  // ---------------------------------------------------------------- which types are meant

  predicate LegalName(name: string) {
    name != [] && ',' !in name && '\\' !in name && NoSpaceLast(name)
  }

  predicate Sorted(props: seq<Prop>) {
    forall i, j :: 0 <= i < j < |props| ==> Less(props[i].key, props[j].key)
  }

  /** Plain ints and strings, and strings with a custom one-word type other than int. */
  predicate LegalProp(p: Prop, types: map<string, string>) {
    LegalKey(p.key)
    && (p.value.IntV? ==> p.key !in types && INT_MIN <= p.value.n <= INT_MAX)
    && (p.key in types ==> Word(types[p.key]) && types[p.key] != "int")
  }

  predicate Legal(t: TypeDesc) {
    LegalName(t.name) && Sorted(t.props) && t.errors == ""
    && (forall i :: 0 <= i < |t.props| ==> LegalProp(t.props[i], t.strTypes))
    && (forall k <- t.strTypes :: exists i :: 0 <= i < |t.props| && t.props[i].key == k)
  }

  predicate AllClean(props: seq<Prop>) {
    forall i :: 0 <= i < |props| && props[i].value.StrV? ==> Clean(props[i].value.s)
  }

  /** Printed without quotes, the value ends in a backslash. */
  predicate Dangling(p: Prop) {
    p.value.StrV? && !NeedsQuotes(Ser(p.value.s)) && p.value.s != [] && p.value.s[|p.value.s| - 1] == '\\'
  }

  /** No dangling value before another property. */
  predicate Separated(props: seq<Prop>) {
    forall i :: 0 <= i < |props| - 1 ==> !Dangling(props[i])
  }

  // ---------------------------------------------------------------- the printed document

  function TypeWord(p: Prop, types: map<string, string>): string {
    if p.key in types then types[p.key] else if p.value.StrV? then "string" else "int"
  }

  function Head(p: Prop, types: map<string, string>): string {
    [',', ' '] + p.key + ['=', '('] + TypeWord(p, types) + [')']
  }

  function Body(p: Prop): string {
    match p.value
    case IntV(n) => IntToString(n)
    case StrV(s) => Serialize(s)
  }

  function Doc(props: seq<Prop>, types: map<string, string>): string
    decreases |props|
  {
    if props == [] then [] else Head(props[0], types) + (Body(props[0]) + Doc(props[1..], types))
  }

  predicate LegalProps(props: seq<Prop>, types: map<string, string>) {
    forall i :: 0 <= i < |props| ==> LegalProp(props[i], types)
  }

  lemma PrintOne(p: Prop, types: map<string, string>)
    requires LegalProp(p, types)
    ensures PrintProp(p, types) == Some(Head(p, types) + Body(p))
  {
    var s := Head(p, types) + Body(p);
    if p.key in types {
      assert s == ", " + p.key + "=(" + types[p.key] + ")" + Serialize(p.value.s);
    } else if p.value.StrV? {
      assert s == ", " + p.key + "=(string)" + Serialize(p.value.s);
    } else {
      assert s == ", " + p.key + "=(int)" + IntToString(p.value.n);
    }
  }

  lemma {:induction false} DocSnoc(props: seq<Prop>, p: Prop, types: map<string, string>)
    ensures Doc(props + [p], types) == Doc(props, types) + (Head(p, types) + Body(p))
    decreases |props|
  {
    var all := props + [p];
    if props == [] {
      assert all[1..] == [];
      assert Body(p) + Doc([], types) == Body(p);
    } else {
      assert all[1..] == props[1..] + [p];
      DocSnoc(props[1..], p, types);
    }
  }

  /** The loop of `str` writes the properties in key order. */
  lemma {:induction false} PrintsDoc(props: seq<Prop>, types: map<string, string>)
    requires LegalProps(props, types)
    ensures PrintProps(props, types) == Some(Doc(props, types))
    decreases |props|
  {
    if props != [] {
      var last := props[|props| - 1];
      var front := props[..|props| - 1];
      assert props == front + [last];
      PrintsDoc(front, types);
      PrintOne(last, types);
      DocSnoc(front, last, types);
    }
  }

  // ---------------------------------------------------------------- the escaped document

  function CarriedBody(p: Prop): string {
    match p.value
    case IntV(n) => IntToString(n)
    case StrV(s) => Carried(s)
  }

  function EscapedDoc(props: seq<Prop>, types: map<string, string>): string
    decreases |props|
  {
    if props == [] then [] else Head(props[0], types) + (CarriedBody(props[0]) + EscapedDoc(props[1..], types))
  }

  lemma TypeWordWord(p: Prop, types: map<string, string>)
    requires LegalProp(p, types)
    ensures Word(TypeWord(p, types))
    ensures TypeWord(p, types) == "int" <==> p.value.IntV?
  {
  }

  function Commas(s: string): nat {
    multiset(s)[',']
  }

  lemma CommasConcat(a: string, b: string)
    ensures Commas(a + b) == Commas(a) + Commas(b)
  {
  }

  lemma NoCommas(a: string)
    requires ',' !in a
    ensures Commas(a) == 0
  {
    assert ',' !in multiset(a);
  }

  /** Head, its leading comma apart. */
  function HeadRest(p: Prop, types: map<string, string>): string {
    [' '] + p.key + ['=', '('] + TypeWord(p, types) + [')']
  }

  lemma HeadPlain(p: Prop, types: map<string, string>)
    requires LegalProp(p, types)
    ensures Head(p, types) == [','] + HeadRest(p, types)
    ensures '\\' !in HeadRest(p, types) && ',' !in HeadRest(p, types)
  {
    TypeWordWord(p, types);
    var k, t := p.key, TypeWord(p, types);
    forall i | 0 <= i < |k| ensures k[i] != '\\' && k[i] != ',' {
      assert KeyChar(k[i]);
    }
    forall i | 0 <= i < |t| ensures t[i] != '\\' && t[i] != ',' {
      assert IsWord(t[i]);
    }
  }

  lemma IntPlain(n: int)
    ensures '\\' !in IntToString(n) && ',' !in IntToString(n) && '=' !in IntToString(n)
    ensures NoSpaceLast(IntToString(n)) && IntToString(n) != []
  {
    var d := DigitsOf(if n < 0 then -n else n);
    forall i | 0 <= i < |d| ensures d[i] != '\\' && d[i] != ',' && d[i] != '=' && d[i] != ' ' {
      assert IsDigit(d[i]);
    }
  }

  lemma EscapeBody(p: Prop, x: string)
    requires !Dangling(p) || x == []
    ensures Escape(Body(p) + x) == CarriedBody(p) + Escape(x)
  {
    match p.value
    case IntV(n) => IntPlain(n); EscapePlain(IntToString(n), x);
    case StrV(s) => EscapeSerialized(s, x);
  }

  lemma {:induction false} EscapeDoc(props: seq<Prop>, types: map<string, string>)
    requires LegalProps(props, types) && Separated(props)
    ensures Escape(Doc(props, types)) == EscapedDoc(props, types)
    decreases |props|
  {
    if props != [] {
      var p, rest := props[0], props[1..];
      var x := Doc(rest, types);
      EscapeDoc(rest, types);
      HeadPlain(p, types);
      EscapePlain(Head(p, types), Body(p) + x);
      EscapeBody(p, x);
    }
  }

  // ---------------------------------------------------------------- pieces

  /** A piece of the document: a property as the constructor's loop sees it. */
  function PieceOf(p: Prop, types: map<string, string>): string {
    p.key + ['='] + Literal(TypeWord(p, types), CarriedBody(p))
  }

  function Pieces(props: seq<Prop>, types: map<string, string>): seq<string>
    decreases |props|
  {
    if props == [] then [] else [PieceOf(props[0], types)] + Pieces(props[1..], types)
  }

  lemma CarriedBodyShape(p: Prop)
    ensures ',' !in CarriedBody(p) && '=' !in CarriedBody(p) && NoSpaceLast(CarriedBody(p))
  {
    match p.value
    case IntV(n) => IntPlain(n);
    case StrV(s) =>
      Hidden(s);
      if !NeedsQuotes(Ser(s)) && s != [] {
        SerSpace(s);
        FullLast(s);
      }
  }

  lemma {:induction false} SerSpace(v: string)
    requires ' ' !in Ser(v)
    ensures ' ' !in v
    decreases |v|
  {
    if v != [] {
      SerSpace(v[1..]);
      assert EncChar("\\,", "\\=", v[0]) <= Ser(v);
      assert v[0] in EncChar("\\,", "\\=", v[0]);
    }
  }

  lemma {:induction false} FullLast(v: string)
    requires ' ' !in v && v != []
    ensures Full(v) != [] && NoSpaceLast(Full(v))
    decreases |v|
  {
    if |v| > 1 {
      FullLast(v[1..]);
    } else {
      assert v[1..] == [] && Full([]) == [];
      assert EncChar(COMA, EQUAL, v[0]) + [] == EncChar(COMA, EQUAL, v[0]);
    }
  }

  lemma PieceText(k: string, t: string, b: string)
    ensures ([' '] + k + ['=', '('] + t + [')']) + b == [' '] + (k + ['='] + Literal(t, b))
  {
    assert ['=', '('] == ['='] + ['('];
  }

  lemma PieceEnds(k: string, t: string, b: string)
    requires LegalKey(k) && Word(t) && ',' !in b && NoSpaceLast(b)
    ensures ',' !in k + ['='] + Literal(t, b) && NoSpaceLast(k + ['='] + Literal(t, b))
    ensures (k + ['='] + Literal(t, b))[0] == k[0] && k[0] != ' '
  {
    forall i | 0 <= i < |k| ensures k[i] != ',' && k[i] != ' ' {
      assert KeyChar(k[i]);
    }
    forall i | 0 <= i < |t| ensures t[i] != ',' {
      assert IsWord(t[i]);
    }
    assert ',' !in Literal(t, b);
    if b == [] {
      assert Literal(t, b)[|t| + 1] == ')';
    }
  }

  lemma PieceShape(p: Prop, types: map<string, string>)
    requires LegalProp(p, types)
    ensures HeadRest(p, types) + CarriedBody(p) == [' '] + PieceOf(p, types)
    ensures ',' !in PieceOf(p, types) && NoSpaceLast(PieceOf(p, types))
    ensures PieceOf(p, types) != [] && PieceOf(p, types)[0] != ' '
  {
    TypeWordWord(p, types);
    CarriedBodyShape(p);
    PieceText(p.key, TypeWord(p, types), CarriedBody(p));
    PieceEnds(p.key, TypeWord(p, types), CarriedBody(p));
  }

  lemma DropOne(s: string, x: string)
    requires s != [] && s[0] != ' '
    ensures DropSpaces([' '] + s + x) == s + x
  {
    assert ([' '] + s + x)[1..] == s + x;
    assert (s + x)[0] == s[0];
  }

  lemma DocHead(h: string, b: string, s: string, x: string)
    requires h + b == s
    ensures ([','] + h) + (b + x) == [','] + (s + x)
  {
    assert h + (b + x) == (h + b) + x;
  }

  lemma EscapedDocStep(props: seq<Prop>, types: map<string, string>)
    requires LegalProps(props, types) && props != []
    ensures EscapedDoc(props, types)
         == [','] + ([' '] + PieceOf(props[0], types) + EscapedDoc(props[1..], types))
  {
    var p := props[0];
    HeadPlain(p, types);
    PieceShape(p, types);
    DocHead(HeadRest(p, types), CarriedBody(p), [' '] + PieceOf(p, types), EscapedDoc(props[1..], types));
  }

  lemma SplitStep(a: string, piece: string, x: string)
    requires ',' !in a && NoSpaceLast(a) && piece != [] && piece[0] != ' '
    ensures Split(a + ([','] + ([' '] + piece + x))) == [a] + Split(piece + x)
  {
    var b := [' '] + piece + x;
    DropOne(piece, x);
    SplitAt(a, b);
    Associates(a, [','], b);
  }

  lemma Associates(a: string, b: string, c: string)
    ensures a + (b + c) == a + b + c
  {
  }

  /** The splitter finds the name and one piece per property. */
  lemma {:induction false} SplitDoc(a: string, props: seq<Prop>, types: map<string, string>)
    requires LegalProps(props, types) && ',' !in a && NoSpaceLast(a)
    ensures Split(a + EscapedDoc(props, types)) == [a] + Pieces(props, types)
    decreases |props|
  {
    if props == [] {
      assert a + [] == a;
      SplitLast(a);
    } else {
      var piece := PieceOf(props[0], types);
      PieceShape(props[0], types);
      EscapedDocStep(props, types);
      SplitDoc(piece, props[1..], types);
      SplitStep(a, piece, EscapedDoc(props[1..], types));
    }
  }

  // ---------------------------------------------------------------- absorbing the pieces

  /** A property as it comes back. */
  function Returned(p: Prop): Prop {
    match p.value
    case IntV(n) => p
    case StrV(s) => Prop(p.key, StrV(Unescape(Carried(s))))
  }

  function AllReturned(props: seq<Prop>): (r: seq<Prop>)
    ensures |r| == |props|
    ensures forall i :: 0 <= i < |props| ==> r[i] == Returned(props[i])
    decreases |props|
  {
    if props == [] then [] else [Returned(props[0])] + AllReturned(props[1..])
  }

  /** The recorded types: every string property ends up with one. */
  function Recorded(recorded: map<string, string>, props: seq<Prop>, types: map<string, string>): map<string, string>
    decreases |props|
  {
    if props == [] then recorded
    else
      var p := props[0];
      Recorded(if p.value.StrV? then EmplaceType(recorded, p.key, TypeWord(p, types)) else recorded, props[1..], types)
  }

  lemma PieceReturned(p: Prop, types: map<string, string>)
    requires LegalProp(p, types)
    ensures ParsePiece(PieceOf(p, types))
         == Found(p.key, Returned(p).value, if p.value.StrV? then Some(TypeWord(p, types)) else None)
  {
    TypeWordWord(p, types);
    CarriedBodyShape(p);
    PieceRead(p.key, TypeWord(p, types), CarriedBody(p));
    if p.value.IntV? {
      ReadIntBack(p.value.n);
    }
  }

  lemma {:induction false} LessAsym(a: string, b: string)
    requires Less(a, b)
    ensures !Less(b, a) && a != b
    decreases |a|
  {
    if a != [] && a[0] == b[0] {
      LessAsym(a[1..], b[1..]);
    }
  }

  lemma {:induction false} EmplaceLast(props: seq<Prop>, p: Prop)
    requires forall i :: 0 <= i < |props| ==> Less(props[i].key, p.key)
    ensures Emplace(props, p) == props + [p]
    decreases |props|
  {
    if props != [] {
      LessAsym(props[0].key, p.key);
      EmplaceLast(props[1..], p);
    }
  }

  function Grown(t: TypeDesc, p: Prop, types: map<string, string>): TypeDesc {
    t.(props := t.props + [Returned(p)],
       strTypes := if p.value.StrV? then EmplaceType(t.strTypes, p.key, TypeWord(p, types)) else t.strTypes)
  }

  lemma AbsorbOne(t: TypeDesc, p: Prop, types: map<string, string>)
    requires LegalProp(p, types) && forall i :: 0 <= i < |t.props| ==> Less(t.props[i].key, p.key)
    ensures Absorb(t, PieceOf(p, types)) == Some(Grown(t, p, types))
  {
    PieceReturned(p, types);
    EmplaceLast(t.props, Returned(p));
  }

  lemma AbsorbMore(t: TypeDesc, next: TypeDesc, piece: string, rest: seq<string>)
    requires Absorb(t, piece) == Some(next)
    ensures AbsorbAll(t, [piece] + rest) == AbsorbAll(next, rest)
  {
    assert ([piece] + rest)[1..] == rest;
  }

  predicate Before(first: seq<Prop>, later: seq<Prop>) {
    forall i, j :: 0 <= i < |first| && 0 <= j < |later| ==> Less(first[i].key, later[j].key)
  }

  /** t, with all of props absorbed. */
  function AllGrown(t: TypeDesc, props: seq<Prop>, types: map<string, string>): TypeDesc {
    TypeDesc(t.name, t.props + AllReturned(props), Recorded(t.strTypes, props, types), t.errors)
  }

  lemma AllGrownStep(t: TypeDesc, props: seq<Prop>, types: map<string, string>)
    requires props != []
    ensures AllGrown(t, props, types) == AllGrown(Grown(t, props[0], types), props[1..], types)
  {
    var r := AllReturned(props[1..]);
    assert AllReturned(props) == [Returned(props[0])] + r;
    assert t.props + ([Returned(props[0])] + r) == (t.props + [Returned(props[0])]) + r;
  }

  lemma BeforeStep(t: TypeDesc, props: seq<Prop>, types: map<string, string>)
    requires props != [] && Sorted(props) && Before(t.props, props)
    ensures Sorted(props[1..]) && Before(Grown(t, props[0], types).props, props[1..])
  {
    var p, rest, next := props[0], props[1..], Grown(t, props[0], types);
    forall i, j | 0 <= i < |next.props| && 0 <= j < |rest| ensures Less(next.props[i].key, rest[j].key) {
      assert rest[j] == props[j + 1];
      assert i == |t.props| ==> next.props[i].key == p.key;
    }
  }

  lemma {:induction false} AbsorbPieces(t: TypeDesc, props: seq<Prop>, types: map<string, string>)
    requires LegalProps(props, types) && Sorted(props) && Before(t.props, props)
    ensures AbsorbAll(t, Pieces(props, types)) == Some(AllGrown(t, props, types))
    decreases |props|
  {
    if props == [] {
      assert t.props + [] == t.props;
    } else {
      AbsorbOne(t, props[0], types);
      var next := Grown(t, props[0], types);
      AbsorbMore(t, next, PieceOf(props[0], types), Pieces(props[1..], types));
      BeforeStep(t, props, types);
      AbsorbPieces(next, props[1..], types);
      AllGrownStep(t, props, types);
    }
  }

  // ---------------------------------------------------------------- the positive half

  /** The name is the first piece that is not empty. */
  lemma ParseNamed(s: string, name: string, pieces: seq<string>)
    requires Split(Escape(s)) == [name] + pieces && name != []
    ensures Parse(s) == AbsorbAll(TypeDesc(name, [], map[], []), pieces)
  {
    assert ([name] + pieces)[1..] == pieces;
  }

  lemma EscapePrint(t: TypeDesc)
    requires LegalName(t.name) && LegalProps(t.props, t.strTypes)
    ensures Print(t) == Some(t.name + Doc(t.props, t.strTypes))
    ensures Escape(t.name + Doc(t.props, t.strTypes)) == t.name + Escape(Doc(t.props, t.strTypes))
  {
    PrintsDoc(t.props, t.strTypes);
    EscapePlain(t.name, Doc(t.props, t.strTypes));
  }

  /** What comes back when the separators are seen: the same keys in the same order, every
      int, and every string as unescaping leaves it. */
  lemma ParsePrint(t: TypeDesc)
    requires Legal(t) && Separated(t.props)
    ensures Print(t).Some?
    ensures Parse(Print(t).value) == Some(TypeDesc(t.name, AllReturned(t.props), Recorded(map[], t.props, t.strTypes), ""))
  {
    EscapePrint(t);
    EscapeDoc(t.props, t.strTypes);
    SplitDoc(t.name, t.props, t.strTypes);
    ParseNamed(t.name + Doc(t.props, t.strTypes), t.name, Pieces(t.props, t.strTypes));
    AbsorbPieces(TypeDesc(t.name, [], map[], []), t.props, t.strTypes);
    assert [] + AllReturned(t.props) == AllReturned(t.props);
  }

  lemma ReturnedIff(props: seq<Prop>)
    ensures AllReturned(props) == props <==> AllClean(props)
  {
    forall i | 0 <= i < |props| ensures Returned(props[i]) == props[i] <==> (props[i].value.StrV? ==> Clean(props[i].value.s)) {
      if props[i].value.StrV? {
        CarriedIff(props[i].value.s);
      }
    }
    var r := AllReturned(props);
    if r == props {
      forall i | 0 <= i < |props| && props[i].value.StrV? ensures Clean(props[i].value.s) {
        assert r[i] == Returned(props[i]);
      }
    }
  }

  // ---------------------------------------------------------------- a lost separator

  lemma {:induction false} EncSnoc(coma: string, equal: string, v: string, c: char)
    ensures Enc(coma, equal, v + [c]) == Enc(coma, equal, v) + EncChar(coma, equal, c)
    decreases |v|
  {
    var s := v + [c];
    if v == [] {
      assert s[1..] == [];
      assert EncChar(coma, equal, c) + [] == EncChar(coma, equal, c);
    } else {
      assert s[1..] == v[1..] + [c];
      EncSnoc(coma, equal, v[1..], c);
    }
  }

  /** A final backslash and the comma after it are read as one escaped comma. */
  lemma BackslashTakesComma(v: string, tail: string)
    requires v != [] && v[|v| - 1] == '\\' && tail != [] && tail[0] == ' '
    ensures Escape(Ser(v) + ([','] + tail)) == Full(v[..|v| - 1] + [',']) + Escape(tail)
  {
    var w := v[..|v| - 1];
    assert v == w + ['\\'];
    EncSnoc("\\,", "\\=", w, '\\');
    EncSnoc("\\,", "\\=", w, ',');
    assert Ser(v) + ([','] + tail) == Ser(w + [',']) + tail;
    EscapeValue(w + [','], tail);
  }

  lemma CommaFirst(h: string, x: string)
    requires '\\' !in h && ',' !in h
    ensures Escape([','] + (h + x)) == [','] + Escape(h + x)
    ensures Commas(Escape([','] + (h + x))) == 1 + Commas(Escape(x))
  {
    EscapePlain([','], h + x);
    EscapePlain(h, x);
    CommasConcat([','], h + Escape(x));
    CommasConcat(h, Escape(x));
    NoCommas(h);
  }

  lemma EscapedHead(p: Prop, x: string, types: map<string, string>)
    requires LegalProp(p, types)
    ensures Head(p, types) + x == [','] + (HeadRest(p, types) + x)
    ensures Escape(Head(p, types) + x) == [','] + Escape(HeadRest(p, types) + x)
    ensures Commas(Escape(Head(p, types) + x)) == 1 + Commas(Escape(x))
  {
    HeadPlain(p, types);
    var h := HeadRest(p, types);
    assert ([','] + h) + x == [','] + (h + x);
    CommaFirst(h, x);
  }

  lemma DanglingCount(p: Prop, rest: seq<Prop>, types: map<string, string>)
    requires Dangling(p) && rest != [] && LegalProps(rest, types)
    ensures Commas(Escape(Body(p) + Doc(rest, types))) == Commas(Escape(Doc(rest, types))) - 1
  {
    var v := p.value.s;
    var w := v[..|v| - 1] + [','];
    SerializeIsSer(v);
    var x := Body(rest[0]) + Doc(rest[1..], types);
    EscapedHead(rest[0], x, types);
    var tail := HeadRest(rest[0], types) + x;
    assert tail[0] == ' ';
    BackslashTakesComma(v, tail);
    CommasConcat(Full(w), Escape(tail));
    CommasConcat([','], Escape(tail));
    FullHides(w);
    NoCommas(Full(w));
  }

  lemma SeenCount(p: Prop, x: string)
    requires !Dangling(p) || x == []
    ensures Commas(Escape(Body(p) + x)) == Commas(Escape(x))
  {
    EscapeBody(p, x);
    CarriedBodyShape(p);
    CommasConcat(CarriedBody(p), Escape(x));
    NoCommas(CarriedBody(p));
  }

  /** Every dangling value costs a separator. */
  lemma {:induction false} EscapeCount(props: seq<Prop>, types: map<string, string>)
    requires LegalProps(props, types)
    ensures Commas(Escape(Doc(props, types))) <= |props|
    ensures !Separated(props) ==> Commas(Escape(Doc(props, types))) < |props|
    decreases |props|
  {
    if props != [] {
      var p, rest := props[0], props[1..];
      var x := Doc(rest, types);
      EscapeCount(rest, types);
      EscapedHead(p, Body(p) + x, types);
      if Dangling(p) && rest != [] {
        DanglingCount(p, rest, types);
      } else {
        SeenCount(p, x);
        if Separated(rest) {
          forall i | 0 <= i < |props| - 1 ensures !Dangling(props[i]) {
            assert i > 0 ==> props[i] == rest[i - 1];
          }
        }
      }
    }
  }

  lemma {:induction false} EmplaceCount(props: seq<Prop>, p: Prop)
    ensures |Emplace(props, p)| <= |props| + 1
    decreases |props|
  {
    if props != [] {
      EmplaceCount(props[1..], p);
    }
  }

  lemma {:induction false} AbsorbCount(t: TypeDesc, pieces: seq<string>)
    ensures AbsorbAll(t, pieces).Some? ==> |AbsorbAll(t, pieces).value.props| <= |t.props| + |pieces|
    decreases |pieces|
  {
    if pieces != [] {
      var next := Absorb(t, pieces[0]);
      if next.Some? {
        match ParsePiece(pieces[0]) {
          case Found(key, value, _) => EmplaceCount(t.props, Prop(key, value));
          case Nothing =>
          case Wrong =>
        }
        AbsorbCount(next.value, pieces[1..]);
      }
    }
  }

  /** Whatever the text, a parsed type has no more properties than there are separators. */
  lemma ParseCount(s: string)
    ensures Parse(s).Some? ==> |Parse(s).value.props| <= Commas(Escape(s))
  {
    SplitCount(Escape(s));
    ParsedFrom(s, Split(Escape(s)));
  }

  lemma ParsedFrom(s: string, pieces: seq<string>)
    requires pieces == Split(Escape(s))
    ensures Parse(s).Some? && pieces != [] ==> |Parse(s).value.props| < |pieces|
    ensures Parse(s).Some? && pieces == [] ==> Parse(s).value.props == []
  {
    var i := NameAt(pieces);
    if i < |pieces| {
      var rest := pieces[i + 1..];
      AbsorbCount(TypeDesc(pieces[i], [], map[], []), rest);
      assert |rest| == |pieces| - i - 1;
    }
  }

  lemma SeparatorLost(t: TypeDesc)
    requires Legal(t) && !Separated(t.props)
    ensures Print(t).Some?
    ensures Parse(Print(t).value).Some? ==> |Parse(Print(t).value).value.props| < |t.props|
  {
    EscapePrint(t);
    EscapeCount(t.props, t.strTypes);
    ParseCount(Print(t).value);
    CommasConcat(t.name, Escape(Doc(t.props, t.strTypes)));
    NoCommas(t.name);
  }

  // ---------------------------------------------------------------- the recorded types

  lemma {:induction false} RecordedKept(rec: map<string, string>, props: seq<Prop>, types: map<string, string>, k: string)
    requires k in rec || forall i :: 0 <= i < |props| && props[i].key == k ==> props[i].value.IntV?
    ensures k in Recorded(rec, props, types) <==> k in rec
    ensures k in rec ==> Recorded(rec, props, types)[k] == rec[k]
    decreases |props|
  {
    if props != [] {
      var p := props[0];
      RecordedKept(if p.value.StrV? then EmplaceType(rec, p.key, TypeWord(p, types)) else rec, props[1..], types, k);
    }
  }

  lemma {:induction false} RecordedAt(rec: map<string, string>, props: seq<Prop>, types: map<string, string>, i: nat)
    requires Sorted(props) && i < |props| && props[i].key !in rec
    ensures props[i].value.StrV? ==> props[i].key in Recorded(rec, props, types)
    ensures props[i].value.StrV? ==> Recorded(rec, props, types)[props[i].key] == TypeWord(props[i], types)
    ensures props[i].value.IntV? ==> props[i].key !in Recorded(rec, props, types)
    decreases |props|
  {
    var p, rest := props[0], props[1..];
    var next := if p.value.StrV? then EmplaceType(rec, p.key, TypeWord(p, types)) else rec;
    if i > 0 {
      assert rest[i - 1] == props[i];
      LessAsym(p.key, props[i].key);
      RecordedAt(next, rest, types, i - 1);
    } else {
      forall j | 0 <= j < |rest| ensures rest[j].key != p.key {
        assert rest[j] == props[j + 1];
        LessAsym(p.key, props[j + 1].key);
      }
      RecordedKept(next, rest, types, p.key);
    }
  }

  lemma {:induction false} SameDoc(props: seq<Prop>, types: map<string, string>, other: map<string, string>)
    requires forall i :: 0 <= i < |props| ==> TypeWord(props[i], types) == TypeWord(props[i], other)
    ensures Doc(props, types) == Doc(props, other)
    decreases |props|
  {
    if props != [] {
      SameDoc(props[1..], types, other);
    }
  }

  lemma RecordedWords(props: seq<Prop>, types: map<string, string>)
    requires LegalProps(props, types) && Sorted(props)
    ensures LegalProps(props, Recorded(map[], props, types))
    ensures Doc(props, Recorded(map[], props, types)) == Doc(props, types)
  {
    var rec := Recorded(map[], props, types);
    forall i | 0 <= i < |props|
      ensures LegalProp(props[i], rec) && TypeWord(props[i], rec) == TypeWord(props[i], types)
    {
      RecordedAt(map[], props, types, i);
      TypeWordWord(props[i], types);
    }
    SameDoc(props, rec, types);
  }

  // ---------------------------------------------------------------- the theorem

  /** Parsing the printed text gives back the name and every property. */
  predicate Survives(t: TypeDesc)
    requires Print(t).Some?
  {
    var back := Parse(Print(t).value);
    back.Some? && back.value.name == t.name && back.value.props == t.props
  }

  /** A legal type comes back exactly when all its string values are clean and none of them
      dangles before another; it comes back without parsing errors and prints as before. */
  lemma RoundTrip(t: TypeDesc)
    requires Legal(t)
    ensures Print(t).Some?
    ensures Survives(t) <==> AllClean(t.props) && Separated(t.props)
    ensures Survives(t) ==> Parse(Print(t).value).value.errors == "" && Print(Parse(Print(t).value).value) == Print(t)
  {
    if Separated(t.props) {
      ParsePrint(t);
      ReturnedIff(t.props);
      RecordedWords(t.props, t.strTypes);
      if AllClean(t.props) {
        PrintsDoc(t.props, t.strTypes);
        PrintsDoc(t.props, Recorded(map[], t.props, t.strTypes));
      }
    } else {
      SeparatorLost(t);
    }
  }

  /** A custom type on a property that is no string. */
  predicate Clashes(p: Prop, types: map<string, string>) {
    p.key in types && p.value.IntV?
  }

  predicate HasClash(props: seq<Prop>, types: map<string, string>) {
    exists i :: 0 <= i < |props| && Clashes(props[i], types)
  }

  lemma HasClashSnoc(front: seq<Prop>, last: Prop, types: map<string, string>)
    ensures HasClash(front + [last], types) <==> HasClash(front, types) || Clashes(last, types)
  {
    var props := front + [last];
    assert props[|front|] == last;
    assert forall i :: 0 <= i < |front| ==> props[i] == front[i];
  }

  /** Printing throws exactly when a custom type is attached to a property that is no string:
      `set_prop` keeps the first value of a key but still records the type. */
  lemma {:induction false} PrintThrows(props: seq<Prop>, types: map<string, string>)
    ensures PrintProps(props, types).None? <==> HasClash(props, types)
    decreases |props|
  {
    if props != [] {
      var front, last := props[..|props| - 1], props[|props| - 1];
      assert props == front + [last];
      PrintThrows(front, types);
      HasClashSnoc(front, last, types);
    }
  }

  /** A clean value that dangles: the next property is lost with it. */
  lemma DanglingLost()
    ensures Clean("x\\")
    ensures var t := TypeDesc("n", [Prop("a", StrV("x\\")), Prop("b", IntV(1))], map[], "");
      Print(t).Some? && !Survives(t)
  {
    PlainIsClean("x\\");
    var t := TypeDesc("n", [Prop("a", StrV("x\\")), Prop("b", IntV(1))], map[], "");
    assert Ser("\\") == "\\" && Ser("x\\") == "x\\" by {
      assert "x\\"[1..] == "\\" && "\\"[1..] == [];
    }
    assert Dangling(t.props[0]);
    RoundTrip(t);
  }
}
