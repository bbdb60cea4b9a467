/** The textual form of a shmdata::Type (shmdata/type.cpp): escaping, printing and
    parsing of `name, key=(type)value, ...`.  Characters are ASCII, as the regular
    expressions of the source treat them. */
module TypeText {
  import opened Wrappers

  // ---------------------------------------------------------------- regular expressions

  /** `std::regex_replace` of a literal pattern: leftmost matches, one after the other. */
  function ReplaceAll(s: string, pat: string, rep: string): string
    requires pat != []
    decreases |s|
  {
    if |s| < |pat| then s
    else if s[..|pat|] == pat then rep + ReplaceAll(s[|pat|..], pat, rep)
    else [s[0]] + ReplaceAll(s[1..], pat, rep)
  }

  const COMA := "__COMA__"
  const EQUAL := "__EQUAL__"

  /** The class `\w`. */
  predicate IsWord(c: char) {
    'a' <= c <= 'z' || 'A' <= c <= 'Z' || '0' <= c <= '9' || c == '_'
  }

  /** The class `\s`. */
  predicate IsSpace(c: char) {
    c == ' ' || '\t' <= c <= '\r'
  }

  predicate IsDigit(c: char) {
    '0' <= c <= '9'
  }

  function IndexOf(s: string, c: char): (i: nat)
    ensures i <= |s| && c !in s[..i] && (i < |s| ==> s[i] == c)
    decreases |s|
  {
    if s == [] || s[0] == c then 0 else 1 + IndexOf(s[1..], c)
  }

  function DropSpaces(s: string): (r: string)
    ensures |r| <= |s|
    decreases |s|
  {
    if s != [] && s[0] == ' ' then DropSpaces(s[1..]) else s
  }

  function StripSpaces(s: string): string
    decreases |s|
  {
    if s != [] && s[|s| - 1] == ' ' then StripSpaces(s[..|s| - 1]) else s
  }

  /** The pieces between the matches of ` *, *`; nothing after the last match is no piece. */
  function Split(s: string): seq<string>
    decreases |s|
  {
    var i := IndexOf(s, ',');
    if i == |s| then [s]
    else
      var rest := DropSpaces(s[i + 1..]);
      [StripSpaces(s[..i])] + if rest == [] then [] else Split(rest)
  }

  function SpaceRun(s: string): (n: nat)
    ensures n <= |s|
    decreases |s|
  {
    if s != [] && IsSpace(s[0]) then 1 + SpaceRun(s[1..]) else 0
  }

  /** `\s*=\s*` replaced by `=`. */
  function TrimEquals(s: string): string
    decreases |s|
  {
    if s == [] then []
    else
      var n := SpaceRun(s);
      if n < |s| && s[n] == '=' then
        var rest := s[n + 1..];
        ['='] + TrimEquals(rest[SpaceRun(rest)..])
      else [s[0]] + TrimEquals(s[1..])
  }

  function WordRun(s: string): (n: nat)
    ensures n <= |s| && forall i :: 0 <= i < n ==> IsWord(s[i])
    decreases |s|
  {
    if s != [] && IsWord(s[0]) then 1 + WordRun(s[1..]) else 0
  }

  /** Leftmost match of `\(\w+\)`: the word inside. */
  function FindLiteral(s: string): (r: Option<string>)
    ensures r.Some? ==> |r.value| + 2 <= |s|
    decreases |s|
  {
    if s == [] then None
    else
      var n := WordRun(s[1..]);
      if s[0] == '(' && n > 0 && n + 1 < |s| && s[n + 1] == ')' then Some(s[1..n + 1])
      else FindLiteral(s[1..])
  }

  // ---------------------------------------------------------------- escaping

  function Escape(s: string): string {
    ReplaceAll(ReplaceAll(s, "\\,", COMA), "\\=", EQUAL)
  }

  function Unescape(s: string): string {
    ReplaceAll(
      ReplaceAll(
        ReplaceAll(
          ReplaceAll(ReplaceAll(s, COMA, ","), "\"", ""),
          EQUAL, "="),
        "\\(", "("),
      "\\)", ")")
  }

  predicate NeedsQuotes(s: string) {
    ' ' in s || ',' in s || '=' in s
  }

  /** `get_serialized_string_value`. */
  function Serialize(v: string): string {
    var r := ReplaceAll(ReplaceAll(ReplaceAll(ReplaceAll(v, ",", "\\,"), "=", "\\="), "(", "\\("), ")", "\\)");
    if NeedsQuotes(r) then "\"" + r + "\"" else r
  }

  // ---------------------------------------------------------------- integers

  const INT_MIN: int := -0x8000_0000
  const INT_MAX: int := 0x7fff_ffff

  function DigitChar(d: nat): (c: char)
    requires d < 10
    ensures IsDigit(c)
  {
    '0' + d as char
  }

  function DigitsOf(n: nat): (s: string)
    ensures s != [] && forall i :: 0 <= i < |s| ==> IsDigit(s[i])
  {
    if n < 10 then [DigitChar(n)] else DigitsOf(n / 10) + [DigitChar(n % 10)]
  }

  /** `std::to_string` of an int. */
  function IntToString(n: int): string {
    if n < 0 then "-" + DigitsOf(-n) else DigitsOf(n)
  }

  function DigitRun(s: string): (n: nat)
    ensures n <= |s| && forall i :: 0 <= i < n ==> IsDigit(s[i])
    decreases |s|
  {
    if s != [] && IsDigit(s[0]) then 1 + DigitRun(s[1..]) else 0
  }

  function ValueOf(digits: string): nat
    requires forall i :: 0 <= i < |digits| ==> IsDigit(digits[i])
    decreases |digits|
  {
    if digits == [] then 0
    else
      assert IsDigit(digits[|digits| - 1]);
      10 * ValueOf(digits[..|digits| - 1]) + (digits[|digits| - 1] as int - '0' as int)
  }

  function Saturate(n: int): int {
    if n < INT_MIN then INT_MIN else if n > INT_MAX then INT_MAX else n
  }

  /** `iss >> tmp_int`: leading spaces, a sign, digits; 0 when there are none. */
  function ReadInt(s: string): int {
    var t := s[SpaceRun(s)..];
    var negative := t != [] && t[0] == '-';
    var u := if t != [] && (t[0] == '-' || t[0] == '+') then t[1..] else t;
    var n: int := ValueOf(u[..DigitRun(u)]);
    Saturate(if negative then -n else n)
  }

  /** An optional minus and digits. */
  predicate IsIntegerText(s: string) {
    Magnitude(s) != [] && forall i :: 0 <= i < |Magnitude(s)| ==> IsDigit(Magnitude(s)[i])
  }

  function Magnitude(s: string): string {
    if s != [] && s[0] == '-' then s[1..] else s
  }

  function IntegerOf(s: string): int
    requires IsIntegerText(s)
  {
    var n: int := ValueOf(Magnitude(s));
    if s[0] == '-' then -n else n
  }

  // ---------------------------------------------------------------- types

  datatype Value = IntV(n: int) | StrV(s: string)

  datatype Prop = Prop(key: string, value: Value)

  /** `props` is the map `properties_` in key order; `strTypes` is `str_types_`. */
  datatype TypeDesc = TypeDesc(name: string, props: seq<Prop>, strTypes: map<string, string>, errors: string)

  /** `operator<` of `std::string`. */
  predicate Less(a: string, b: string)
    decreases |a|
  {
    b != [] && (a == [] || a[0] < b[0] || (a[0] == b[0] && Less(a[1..], b[1..])))
  }

  /** `std::map::emplace`: keeps the order, and what is there already. */
  function Emplace(props: seq<Prop>, p: Prop): seq<Prop>
    decreases |props|
  {
    if props == [] then [p]
    else if p.key == props[0].key then props
    else if Less(p.key, props[0].key) then [p] + props
    else [props[0]] + Emplace(props[1..], p)
  }

  function EmplaceType(types: map<string, string>, key: string, t: string): map<string, string> {
    if key in types then types else types[key := t]
  }

  // ---------------------------------------------------------------- printing

  /** One `, key=(type)value`; None when a custom type is attached to a property that is
      no string, where the source throws `bad_any_cast`. */
  function PrintProp(p: Prop, strTypes: map<string, string>): Option<string> {
    if p.key in strTypes then
      if p.value.StrV? then Some(", " + p.key + "=(" + strTypes[p.key] + ")" + Serialize(p.value.s)) else None
    else match p.value
      case StrV(s) => Some(", " + p.key + "=(string)" + Serialize(s))
      case IntV(n) => Some(", " + p.key + "=(int)" + IntToString(n))
  }

  function PrintProps(props: seq<Prop>, strTypes: map<string, string>): Option<string>
    decreases |props|
  {
    if props == [] then Some("")
    else
      var last := PrintProp(props[|props| - 1], strTypes);
      var front := PrintProps(props[..|props| - 1], strTypes);
      if front.Some? && last.Some? then Some(front.value + last.value) else None
  }

  /** `Type::str`. */
  function Print(t: TypeDesc): Option<string> {
    var props := PrintProps(t.props, t.strTypes);
    if props.Some? then Some(t.name + props.value) else None
  }

  // ---------------------------------------------------------------- parsing

  /** What the constructor's loop makes of one piece. */
  datatype Piece =
    | Nothing                                                  // empty
    | Wrong                                                    // not key=value
    | Threw                                                    // std::stoi out of range
    | Found(key: string, value: Value, custom: Option<string>)

  predicate IsKeyValue(s: string) {
    var i := IndexOf(s, '=');
    0 < i && i + 1 < |s| && '=' !in s[i + 1..] && forall j :: 0 <= j < i ==> IsWord(s[j]) || s[j] == '-'
  }

  function ParseValue(key: string, value: string): Piece {
    var plain := Unescape(value);
    if IsIntegerText(plain) && !(INT_MIN <= IntegerOf(plain) <= INT_MAX) then Threw
    else
      match FindLiteral(value)
      case None => Found(key, if IsIntegerText(plain) then IntV(IntegerOf(plain)) else StrV(plain), None)
      case Some(word) =>
        var rest := value[|word| + 2..];
        if word == "int" then Found(key, IntV(ReadInt(rest)), None)
        else Found(key, StrV(Unescape(rest)), Some(word))
  }

  function ParsePiece(piece: string): Piece {
    if piece == [] then Nothing
    else
      var prop := TrimEquals(piece);
      if !IsKeyValue(prop) then Wrong
      else
        var i := IndexOf(prop, '=');
        ParseValue(prop[..i], prop[i + 1..])
  }

  const WRONG_SYNTAX := "wrong parameter syntax (expecting param_name=param_value, but got "

  function Absorb(t: TypeDesc, piece: string): Option<TypeDesc> {
    match ParsePiece(piece)
    case Nothing => Some(t)
    case Wrong => Some(t.(errors := t.errors + WRONG_SYNTAX + piece))
    case Threw => None
    case Found(key, value, custom) =>
      Some(t.(props := Emplace(t.props, Prop(key, value)),
              strTypes := if custom.Some? then EmplaceType(t.strTypes, key, custom.value) else t.strTypes))
  }

  function AbsorbAll(t: TypeDesc, pieces: seq<string>): Option<TypeDesc>
    decreases |pieces|
  {
    if pieces == [] then Some(t)
    else match Absorb(t, pieces[0])
      case None => None
      case Some(next) => AbsorbAll(next, pieces[1..])
  }

  /** Empty pieces before the name are passed over. */
  function NameAt(pieces: seq<string>): (i: nat)
    ensures i <= |pieces| && (forall j :: 0 <= j < i ==> pieces[j] == []) && (i < |pieces| ==> pieces[i] != [])
    decreases |pieces|
  {
    if pieces != [] && pieces[0] == [] then 1 + NameAt(pieces[1..]) else 0
  }

  /** `Type::Type`; None when the constructor throws. */
  function Parse(s: string): Option<TypeDesc> {
    var pieces := Split(Escape(s));
    var i := NameAt(pieces);
    if i == |pieces| then Some(TypeDesc([], [], map[], []))
    else AbsorbAll(TypeDesc(pieces[i], [], map[], []), pieces[i + 1..])
  }
}
