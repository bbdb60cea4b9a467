/** The class shmdata::Type (shmdata/type.cpp, shmdata/type.hpp). */
module ShmType {
  import opened TypeText
  import opened TypeDocument
  import opened TypeRoundTrip
  import opened Wrappers

  // ---------------------------------------------------------------- the property map

  function Lookup(props: seq<Prop>, key: string): Option<Value>
    decreases |props|
  {
    if props == [] then None
    else if props[0].key == key then Some(props[0].value)
    else Lookup(props[1..], key)
  }

  lemma {:induction false} LessTotal(a: string, b: string)
    ensures Less(a, b) || Less(b, a) || a == b
    decreases |a|
  {
    if a != [] && b != [] && a[0] == b[0] {
      LessTotal(a[1..], b[1..]);
      assert a == [a[0]] + a[1..] && b == [b[0]] + b[1..];
    }
  }

  lemma {:induction false} LessTrans(a: string, b: string, c: string)
    requires Less(a, b) && Less(b, c)
    ensures Less(a, c)
    decreases |a|
  {
    if a != [] && a[0] == b[0] && b[0] == c[0] {
      LessTrans(a[1..], b[1..], c[1..]);
    }
  }

  lemma {:induction false} EmplaceKeys(props: seq<Prop>, p: Prop)
    ensures forall i :: 0 <= i < |Emplace(props, p)| ==> Emplace(props, p)[i] == p || Emplace(props, p)[i] in props
    ensures forall q <- props :: q in Emplace(props, p)
    ensures exists i :: 0 <= i < |Emplace(props, p)| && Emplace(props, p)[i].key == p.key
    decreases |props|
  {
    var r := Emplace(props, p);
    if props == [] {
      assert r[0] == p;
    } else if p.key == props[0].key {
      assert r[0].key == p.key;
    } else if Less(p.key, props[0].key) {
      assert r[0] == p;
      forall q <- props ensures q in r {
        assert q in [p] + props;
      }
    } else {
      var rest := Emplace(props[1..], p);
      EmplaceKeys(props[1..], p);
      var i :| 0 <= i < |rest| && rest[i].key == p.key;
      assert r[i + 1] == rest[i];
      forall q <- props ensures q in r {
        assert q != props[0] ==> q in props[1..];
      }
    }
  }

  /** The map stays in key order. */
  lemma {:induction false} EmplaceSorted(props: seq<Prop>, p: Prop)
    requires Sorted(props)
    ensures Sorted(Emplace(props, p))
    decreases |props|
  {
    if props != [] && p.key != props[0].key {
      var r := Emplace(props, p);
      if Less(p.key, props[0].key) {
        forall j | 0 < j < |r| ensures Less(r[0].key, r[j].key) {
          if j > 1 {
            LessTrans(p.key, props[0].key, props[j - 1].key);
          }
        }
      } else {
        LessTotal(p.key, props[0].key);
        EmplaceSorted(props[1..], p);
        EmplaceKeys(props[1..], p);
        forall j | 0 < j < |r| ensures Less(r[0].key, r[j].key) {
          assert r[j] == Emplace(props[1..], p)[j - 1];
        }
      }
    }
  }

  /** `emplace`: a key that is there keeps its value, all other keys keep theirs. */
  lemma {:induction false} EmplaceLookup(props: seq<Prop>, p: Prop, key: string)
    requires Sorted(props)
    ensures Lookup(Emplace(props, p), key)
         == if key == p.key && Lookup(props, key).None? then Some(p.value) else Lookup(props, key)
    decreases |props|
  {
    if props != [] && p.key != props[0].key {
      if Less(p.key, props[0].key) {
        assert ([p] + props)[1..] == props;
        if key == p.key {
          Missing(props, key);
        }
      } else {
        EmplaceLookup(props[1..], p, key);
      }
    }
  }

  lemma {:induction false} Missing(props: seq<Prop>, key: string)
    requires Sorted(props) && props != [] && Less(key, props[0].key)
    ensures Lookup(props, key).None?
    decreases |props|
  {
    LessAsym(key, props[0].key);
    if |props| > 1 {
      LessTrans(key, props[0].key, props[1].key);
      Missing(props[1..], key);
    }
  }

  lemma {:induction false} AbsorbSorted(t: TypeDesc, pieces: seq<string>)
    requires Sorted(t.props)
    ensures AbsorbAll(t, pieces).Some? ==> Sorted(AbsorbAll(t, pieces).value.props)
    decreases |pieces|
  {
    if pieces != [] {
      match ParsePiece(pieces[0]) {
        case Found(key, value, _) => EmplaceSorted(t.props, Prop(key, value));
        case Nothing =>
        case Wrong =>
        case Threw =>
      }
      if Absorb(t, pieces[0]).Some? {
        AbsorbSorted(Absorb(t, pieces[0]).value, pieces[1..]);
      }
    }
  }

  // ---------------------------------------------------------------- building legal types

  function SetProp(t: TypeDesc, key: string, value: Value): TypeDesc {
    t.(props := Emplace(t.props, Prop(key, value)))
  }

  function SetCustom(t: TypeDesc, key: string, custom: string, value: string): TypeDesc {
    t.(props := Emplace(t.props, Prop(key, StrV(value))), strTypes := EmplaceType(t.strTypes, key, custom))
  }

  lemma {:induction false} LookupIn(props: seq<Prop>, p: Prop)
    requires Sorted(props) && p in props
    ensures Lookup(props, p.key) == Some(p.value)
    decreases |props|
  {
    if props[0] != p {
      var i :| 0 <= i < |props| && props[i] == p;
      LessAsym(props[0].key, p.key);
      assert p == props[1..][i - 1];
      LookupIn(props[1..], p);
    }
  }

  lemma {:induction false} LookupFound(props: seq<Prop>, key: string)
    requires Lookup(props, key).Some?
    ensures Prop(key, Lookup(props, key).value) in props
    decreases |props|
  {
    if props[0].key != key {
      LookupFound(props[1..], key);
    }
  }

  lemma EmplaceNew(props: seq<Prop>, p: Prop)
    requires Sorted(props)
    ensures p in Emplace(props, p) ==> p in props || Lookup(props, p.key).None?
  {
    var r := Emplace(props, p);
    if p in r && Lookup(props, p.key).Some? {
      EmplaceSorted(props, p);
      LookupIn(r, p);
      EmplaceLookup(props, p, p.key);
      LookupFound(props, p.key);
    }
  }

  /** Setting a plain property keeps a type within the round-trip theorem. */
  lemma SetPropLegal(t: TypeDesc, key: string, value: Value)
    requires Legal(t) && LegalKey(key) && (value.IntV? ==> INT_MIN <= value.n <= INT_MAX)
    ensures Legal(SetProp(t, key, value))
  {
    var p := Prop(key, value);
    EmplaceSorted(t.props, p);
    EmplaceKeys(t.props, p);
    var r := Emplace(t.props, p);
    forall i | 0 <= i < |t.props| ensures t.props[i].key == key ==> Lookup(t.props, key).Some? {
      LookupIn(t.props, t.props[i]);
    }
    EmplaceNew(t.props, p);
    forall k <- t.strTypes ensures exists i :: 0 <= i < |r| && r[i].key == k {
      var i :| 0 <= i < |t.props| && t.props[i].key == k;
      assert t.props[i] in r;
    }
  }

  /** Setting a property with a custom type does so exactly when the key holds no int. */
  lemma SetCustomLegal(t: TypeDesc, key: string, custom: string, value: string)
    requires Legal(t) && LegalKey(key) && Word(custom) && custom != "int"
    ensures Legal(SetCustom(t, key, custom, value)) <==> !(Lookup(t.props, key).Some? && Lookup(t.props, key).value.IntV?)
  {
    var p := Prop(key, StrV(value));
    var next := SetCustom(t, key, custom, value);
    EmplaceSorted(t.props, p);
    EmplaceKeys(t.props, p);
    EmplaceLookup(t.props, p, key);
    var r := next.props;
    forall i | 0 <= i < |r| ensures LegalProp(r[i], next.strTypes) || (r[i].key == key && r[i] in t.props && r[i].value.IntV?) {
      LookupIn(r, r[i]);
    }
    forall k <- next.strTypes ensures exists i :: 0 <= i < |r| && r[i].key == k {
      if k in t.strTypes {
        var i :| 0 <= i < |t.props| && t.props[i].key == k;
        assert t.props[i] in r;
      }
    }
    var found := Lookup(t.props, key);
    if found.Some? && found.value.IntV? {
      LookupFound(t.props, key);
      assert Prop(key, found.value) in r;
      var i :| 0 <= i < |r| && r[i] == Prop(key, found.value);
      assert !LegalProp(r[i], next.strTypes);
    } else {
      forall i | 0 <= i < |r| ensures LegalProp(r[i], next.strTypes) {
        if r[i] in t.props && r[i].key == key {
          LookupIn(t.props, r[i]);
        }
      }
    }
  }

  // ---------------------------------------------------------------- the class

  class ShmType {
    var name: string
    var properties: seq<Prop>            // std::map, in key order
    var strTypes: map<string, string>
    var parsingErrors: string

    function Value(): TypeDesc
      reads this
    {
      TypeDesc(name, properties, strTypes, parsingErrors)
    }

    constructor ()
      ensures Value() == TypeDesc("", [], map[], "")
    {
      name, properties, strTypes, parsingErrors := "", [], map[], "";
    }

    /** The body of the constructor from a text; when it throws, no object comes of it. */
    method Read(text: string) returns (threw: bool)
      requires Value() == TypeDesc("", [], map[], "")
      modifies this
      ensures threw <==> Parse(text).None?
      ensures !threw ==> Value() == Parse(text).value && Sorted(properties)
    {
      var pieces := Split(Escape(text));
      var i := ReadName(pieces);
      ParseFrom(text);
      assert pieces[|pieces|..] == [];
      threw := ReadProperties(pieces, i);
    }

    /** The loop that looks for the name. */
    method ReadName(pieces: seq<string>) returns (i: nat)
      requires name == []
      modifies this`name
      ensures if NameAt(pieces) == |pieces| then i == |pieces| && name == []
              else i == NameAt(pieces) + 1 && name == pieces[NameAt(pieces)]
    {
      i := 0;
      assert pieces[0..] == pieces;
      while name == [] && i < |pieces|
        invariant i <= |pieces|
        invariant name == [] ==> NameAt(pieces) == i + NameAt(pieces[i..])
        invariant name != [] ==> 0 < i && i - 1 == NameAt(pieces) && name == pieces[i - 1]
      {
        NameStep(pieces, i);
        name := pieces[i];
        i := i + 1;
      }
    }

    /** The loop over the pieces that follow the name. */
    method ReadProperties(pieces: seq<string>, first: nat) returns (threw: bool)
      requires first <= |pieces| && Sorted(properties)
      modifies this
      ensures threw <==> AbsorbAll(old(Value()), pieces[first..]).None?
      ensures !threw ==> Value() == AbsorbAll(old(Value()), pieces[first..]).value && Sorted(properties)
    {
      threw := false;
      ghost var all := AbsorbAll(Value(), pieces[first..]);
      var i := first;
      while i < |pieces| && !threw
        invariant first <= i <= |pieces|
        invariant Sorted(properties)
        invariant all == if threw then None else AbsorbAll(Value(), pieces[i..])
      {
        AbsorbStep(Value(), pieces, i);
        threw := Add(pieces[i]);
        i := i + 1;
      }
    }

    /** The body of the constructor's loop. */
    method Add(piece: string) returns (threw: bool)
      requires Sorted(properties)
      modifies this
      ensures threw <==> Absorb(old(Value()), piece).None?
      ensures threw ==> Value() == old(Value())
      ensures !threw ==> Value() == Absorb(old(Value()), piece).value
      ensures Sorted(properties)
    {
      if piece == [] {
        return false;
      }
      var prop := TrimEquals(piece);
      if !IsKeyValue(prop) {
        parsingErrors := parsingErrors + WRONG_SYNTAX + piece;
        return false;
      }
      var equalPos := IndexOf(prop, '=');
      var key, value := prop[..equalPos], prop[equalPos + 1..];
      var any, custom, outOfRange := ReadValue(key, value);
      assert ParsePiece(piece) == ParseValue(key, value);
      if outOfRange {
        return true;
      }
      if custom.Some? {
        strTypes := EmplaceType(strTypes, key, custom.value);
      }
      EmplaceSorted(properties, Prop(key, any));
      properties := Emplace(properties, Prop(key, any));
      threw := false;
    }

    /** The value of one `key=value`: an integer, a text, or what its literal type asks for. */
    method ReadValue(key: string, value: string) returns (any: Value, custom: Option<string>, outOfRange: bool)
      ensures ParseValue(key, value) == if outOfRange then Threw else Found(key, any, custom)
    {
      var unescaped := Unescape(value);
      any, custom, outOfRange := StrV(unescaped), None, false;
      if IsIntegerText(unescaped) {
        var n := IntegerOf(unescaped);
        if n < INT_MIN || INT_MAX < n {
          outOfRange := true;
          return;
        }
        any := IntV(n);
      }
      var literal := FindLiteral(value);
      if literal.Some? {
        var rest := value[|literal.value| + 2..];
        if literal.value == "int" {
          any := IntV(ReadInt(rest));
        } else {
          any := StrV(Unescape(rest));
          custom := literal;
        }
      }
    }

    method Get(key: string) returns (r: Option<Value>)
      requires Sorted(properties)
      ensures r.Some? ==> Prop(key, r.value) in properties
      ensures r.None? ==> forall i :: 0 <= i < |properties| ==> properties[i].key != key
    {
      var i := 0;
      while i < |properties|
        invariant 0 <= i <= |properties|
        invariant forall j :: 0 <= j < i ==> properties[j].key != key
      {
        if properties[i].key == key {
          return Some(properties[i].value);
        }
        i := i + 1;
      }
      r := None;
    }

    method Set(key: string, value: Value)
      requires Sorted(properties)
      modifies this
      ensures Value() == SetProp(old(Value()), key, value) && Sorted(properties)
    {
      EmplaceSorted(properties, Prop(key, value));
      properties := Emplace(properties, Prop(key, value));
    }

    method SetTyped(key: string, custom: string, value: string)
      requires Sorted(properties)
      modifies this
      ensures Value() == SetCustom(old(Value()), key, custom, value) && Sorted(properties)
    {
      EmplaceSorted(properties, Prop(key, StrV(value)));
      properties := Emplace(properties, Prop(key, StrV(value)));
      strTypes := EmplaceType(strTypes, key, custom);
    }

    /** One `, key=(type)value`; a cast that fails throws. */
    method Element(it: Prop) returns (text: string, threw: bool)
      ensures PrintProp(it, strTypes) == if threw then None else Some(text)
    {
      text, threw := "", false;
      if it.key in strTypes {
        if it.value.IntV? {
          threw := true;
        } else {
          text := ", " + it.key + "=(" + strTypes[it.key] + ")" + Serialize(it.value.s);
        }
      } else if it.value.StrV? {
        text := ", " + it.key + "=(string)" + Serialize(it.value.s);
      } else {
        text := ", " + it.key + "=(int)" + IntToString(it.value.n);
      }
    }

    /** `str`, one property after the other. */
    method Str() returns (res: string, threw: bool)
      ensures threw <==> Print(Value()).None?
      ensures !threw ==> res == Print(Value()).value
    {
      res, threw := name, false;
      var props := properties;
      ghost var done := "";
      var i := 0;
      PrintStart(name, props, strTypes);
      while i < |props|
        invariant !threw && 0 <= i <= |props|
        invariant PrintProps(props[..i], strTypes) == Some(done)
        invariant res == name + done
      {
        PrintStep(props, strTypes, i);
        var text;
        text, threw := Element(props[i]);
        if threw {
          PrintPrefix(props, strTypes, i + 1);
          return;
        }
        res := res + text;
        Regroup(name, done, text);
        done := done + text;
        i := i + 1;
      }
      PrintEnd(Value(), done);
    }
  }

  lemma Regroup(a: string, b: string, c: string)
    ensures (a + b) + c == a + (b + c)
  {
  }

  lemma PrintStart(name: string, props: seq<Prop>, types: map<string, string>)
    ensures PrintProps(props[..0], types) == Some("") && name + "" == name
  {
  }

  lemma PrintEnd(t: TypeDesc, done: string)
    requires PrintProps(t.props[..|t.props|], t.strTypes) == Some(done)
    ensures Print(t) == Some(t.name + done)
  {
    assert t.props[..|t.props|] == t.props;
  }

  lemma {:induction false} PrintPrefix(props: seq<Prop>, types: map<string, string>, k: nat)
    requires k <= |props| && PrintProps(props[..k], types).None?
    ensures PrintProps(props, types).None?
    decreases |props| - k
  {
    if k == |props| {
      assert props[..k] == props;
    } else {
      assert props[..k + 1][..k] == props[..k];
      PrintPrefix(props, types, k + 1);
    }
  }

  lemma PrintStep(props: seq<Prop>, types: map<string, string>, i: nat)
    requires i < |props| && PrintProps(props[..i], types).Some?
    ensures PrintProps(props[..i + 1], types)
         == match PrintProp(props[i], types)
            case None => None
            case Some(text) => Some(PrintProps(props[..i], types).value + text)
  {
    assert props[..i + 1][..i] == props[..i];
  }

  lemma ParseFrom(text: string)
    ensures var pieces := Split(Escape(text));
            var i := NameAt(pieces);
            Parse(text) == if i == |pieces| then Some(TypeDesc("", [], map[], ""))
                           else AbsorbAll(TypeDesc(pieces[i], [], map[], ""), pieces[i + 1..])
  {
  }

  lemma NameStep(pieces: seq<string>, i: nat)
    requires i < |pieces|
    ensures NameAt(pieces[i..]) == if pieces[i] == [] then 1 + NameAt(pieces[i + 1..]) else 0
  {
    assert pieces[i..][1..] == pieces[i + 1..];
  }

  lemma AbsorbStep(t: TypeDesc, pieces: seq<string>, i: nat)
    requires i < |pieces|
    ensures AbsorbAll(t, pieces[i..])
         == match Absorb(t, pieces[i])
            case None => None
            case Some(next) => AbsorbAll(next, pieces[i + 1..])
  {
    assert pieces[i..][1..] == pieces[i + 1..];
  }
}
