/** The JSON text format of tools/localjson.py: what JsonWriter writes and what JsonReader makes of a text. */
module Json {

  /** A dict is its list of items in the order they are written, with distinct keys. */
  datatype Json =
    | Null
    | Bool(b: bool)
    | Int(n: int)
    | Str(s: string)
    | Arr(items: seq<Json>)
    | Obj(members: seq<Member>)

  datatype Member = Member(key: string, val: Json)

  ghost predicate DistinctKeys(members: seq<Member>) {
    forall i, j :: 0 <= i < j < |members| ==> members[i].key != members[j].key
  }

  ghost predicate Valid(v: Json)
    decreases v, 1
  {
    match v
    case Arr(items) => forall i :: 0 <= i < |items| ==> Valid(items[i])
    case Obj(members) => DistinctKeys(members) && ValidMembers(members)
    case _ => true
  }

  ghost predicate ValidMembers(members: seq<Member>)
    decreases members, 0
  {
    members == [] || (Valid(members[0].val) && ValidMembers(members[1..]))
  }

  // ---- writing ----

  const BACKSPACE: char := '\U{0008}'
  const FORMFEED: char := '\U{000C}'
  const VTAB: char := '\U{000B}'

  /** str.replace for a single character. */
  function Replace(s: string, c: char, rep: string): string {
    if s == [] then [] else (if s[0] == c then rep else [s[0]]) + Replace(s[1..], c, rep)
  }

  /** The chain of replacements of JsonWriter._write, in its order. */
  function Escaped(s: string, slash: bool): string {
    var s1 := Replace(s, '\\', "\\\\");
    var s2 := if slash then Replace(s1, '/', "\\/") else s1;
    var s3 := Replace(s2, '"', "\\\"");
    var s4 := Replace(s3, BACKSPACE, "\\b");
    var s5 := Replace(s4, FORMFEED, "\\f");
    var s6 := Replace(s5, '\n', "\\n");
    var s7 := Replace(s6, '\r', "\\r");
    Replace(s7, '\t', "\\t")
  }

  function Digit(d: nat): char
    requires d < 10
  {
    ('0' as int + d) as char
  }

  function Digits(n: nat): (s: string)
    ensures s != [] && forall i :: 0 <= i < |s| ==> IsDigit(s[i])
  {
    if n < 10 then [Digit(n)] else Digits(n / 10) + [Digit(n % 10)]
  }

  function Decimal(n: int): (s: string)
    ensures s != [] && (s[0] == '-' || IsDigit(s[0]))
  {
    if n < 0 then "-" + Digits(-n) else Digits(n)
  }

  function Quoted(s: string, slash: bool): string {
    "\"" + Escaped(s, slash) + "\""
  }

  function Text(v: Json, slash: bool): string
    decreases v, 1
  {
    match v
    case Null => "null"
    case Bool(b) => if b then "true" else "false"
    case Int(n) => Decimal(n)
    case Str(s) => Quoted(s, slash)
    case Arr(items) => "[" + TextItems(items, slash) + "]"
    case Obj(members) => "{" + TextMembers(members, slash) + "}"
  }

  function TextItems(items: seq<Json>, slash: bool): string
    decreases items, 0
  {
    if items == [] then [] else
    Text(items[0], slash) + if |items| == 1 then [] else "," + TextItems(items[1..], slash)
  }

  function TextMember(m: Member, slash: bool): string
    decreases m, 2
  {
    Quoted(m.key, slash) + ":" + Text(m.val, slash)
  }

  function TextMembers(members: seq<Member>, slash: bool): string
    decreases members, 0
  {
    if members == [] then [] else
    TextMember(members[0], slash) + if |members| == 1 then [] else "," + TextMembers(members[1..], slash)
  }

  // ---- reading ----

  /** ReadException and AssertionError as raised; StopIteration where the text ends inside a token; Unicode where a
      \u escape gives a character that does not fit the byte buffer; Float for a number with a point or an exponent. */
  datatype Error = ReadException | StopIteration | Unicode | Float

  datatype Read<+T> = Ok(value: T, rest: string) | Fail(e: Error) {
    predicate IsFailure() {
      Fail?
    }
    function PropagateFailure<U>(): Read<U>
      requires Fail?
    {
      Fail(e)
    }
    function Extract(): (T, string)
      requires Ok?
    {
      (value, rest)
    }
  }

  predicate IsSpace(c: char) {
    c == ' ' || c == '\t' || c == '\n' || c == '\r' || c == VTAB || c == FORMFEED
  }

  predicate IsDigit(c: char) {
    '0' <= c <= '9'
  }

  function DigitValue(c: char): nat
    requires IsDigit(c)
  {
    c as int - '0' as int
  }

  /** The rest of the text after a // comment. */
  function AfterLine(s: string): (r: string)
    ensures |r| <= |s|
  {
    if s == [] then [] else if s[0] == '\r' || s[0] == '\n' then s[1..] else AfterLine(s[1..])
  }

  /** The rest of the text after a C style comment, which must not contain another one. */
  function AfterBlock(s: string): (r: Read<()>)
    ensures r.Ok? ==> |r.rest| < |s|
  {
    if s == [] then Fail(ReadException)
    else if s[0] == '*' && |s| > 1 && s[1] == '/' then Ok((), s[2..])
    else if s[0] == '/' && |s| > 1 && s[1] == '*' then Fail(ReadException)
    else AfterBlock(s[1..])
  }

  function AfterComment(s: string): (r: Read<()>)
    requires s != [] && s[0] == '/'
    ensures r.Ok? ==> |r.rest| < |s|
  {
    if |s| == 1 then Fail(StopIteration)
    else if s[1] == '/' then Ok((), AfterLine(s[2..]))
    else if s[1] == '*' then AfterBlock(s[2..])
    else Fail(ReadException)
  }

  function EatWhitespace(s: string): (r: Read<()>)
    ensures r.Ok? ==> |r.rest| <= |s| && (r.rest == [] || (!IsSpace(r.rest[0]) && r.rest[0] != '/'))
    decreases |s|
  {
    if s == [] then Ok((), s)
    else if s[0] == '/' then
      var (_, s1) :- AfterComment(s);
      EatWhitespace(s1)
    else if IsSpace(s[0]) then EatWhitespace(s[1..])
    else Ok((), s)
  }

  /** The fixed words, by a chain of _assertNext. */
  function Literal(s: string, word: string): (r: Read<()>)
    ensures r.Ok? ==> |r.rest| + |word| == |s|
    decreases |word|
  {
    if word == [] then Ok((), s)
    else if s == [] then Fail(StopIteration)
    else if s[0] != word[0] then Fail(ReadException)
    else Literal(s[1..], word[1..])
  }

  function LeadingDigits(s: string): (n: nat)
    ensures n <= |s| && forall i :: 0 <= i < n ==> IsDigit(s[i])
  {
    if s == [] || !IsDigit(s[0]) then 0 else 1 + LeadingDigits(s[1..])
  }

  function ValueOf(s: string): nat
    requires forall i :: 0 <= i < |s| ==> IsDigit(s[i])
  {
    if s == [] then 0 else 10 * ValueOf(s[..|s| - 1]) + DigitValue(s[|s| - 1])
  }

  predicate Continues(s: string) {
    s != [] && (s[0] == '.' || s[0] == 'e')
  }

  function ParseNumber(s: string): (r: Read<Json>)
    requires s != [] && (s[0] == '-' || IsDigit(s[0]))
    ensures r.Ok? ==> |r.rest| < |s|
  {
    var n := LeadingDigits(s[1..]);
    var digits, rest := s[1..][..n], s[1..][n..];
    if Continues(rest) then Fail(Float)
    else if s[0] == '-' then if n == 0 then Fail(ReadException) else Ok(Int(0 - ValueOf(digits)), rest)
    else Ok(Int(ValueOf([s[0]] + digits)), rest)
  }

  function HexValue(c: char): Read<nat> {
    if 'A' <= c <= 'F' then Ok(c as int - 'A' as int + 10, [])
    else if 'a' <= c <= 'f' then Ok(c as int - 'a' as int + 10, [])
    else if IsDigit(c) then Ok(DigitValue(c), [])
    else Fail(ReadException)
  }

  function HexChar(s: string): Read<char> {
    if |s| < 4 then Fail(ReadException) else
    var (h3, _) :- HexValue(s[0]);
    var (h2, _) :- HexValue(s[1]);
    var (h1, _) :- HexValue(s[2]);
    var (h0, _) :- HexValue(s[3]);
    var n := 4096 * h3 + 256 * h2 + 16 * h1 + h0;
    if n < 128 then Ok(n as char, s[4..]) else Fail(Unicode)
  }

  /** One character of a string, escaped or not. */
  function StringChar(s: string): (r: Read<char>)
    ensures r.Ok? ==> |r.rest| < |s|
  {
    if s == [] then Fail(ReadException)
    else if s[0] != '\\' then Ok(s[0], s[1..])
    else if |s| == 1 then Fail(ReadException)
    else if s[1] == 'b' then Ok(BACKSPACE, s[2..])
    else if s[1] == 'r' then Ok('\r', s[2..])
    else if s[1] == 'n' then Ok('\n', s[2..])
    else if s[1] == 'f' then Ok(FORMFEED, s[2..])
    else if s[1] == 't' then Ok('\t', s[2..])
    else if s[1] == 'u' then HexChar(s[2..])
    else if s[1] == '"' || s[1] == '/' || s[1] == '\\' then Ok(s[1], s[2..])
    else Fail(ReadException)
  }

  /** The rest of a string after its opening quote, up to and with the closing one. */
  function StringBody(s: string): (r: Read<string>)
    ensures r.Ok? ==> |r.rest| < |s|
    decreases |s|
  {
    if s != [] && s[0] == '"' then Ok([], s[1..]) else
    var (c, s1) :- StringChar(s);
    var (more, s2) :- StringBody(s1);
    Ok([c] + more, s2)
  }

  /** result[key] = val */
  function Update(members: seq<Member>, key: string, val: Json): seq<Member> {
    if members == [] then [Member(key, val)]
    else if members[0].key == key then [Member(key, val)] + members[1..]
    else [members[0]] + Update(members[1..], key, val)
  }

  function Parse(s: string): (r: Read<Json>)
    ensures r.Ok? ==> |r.rest| < |s|
    decreases |s|, 2
  {
    var (_, t) :- EatWhitespace(s);
    if t == [] then Fail(ReadException)
    else if t[0] == '{' then
      if |t| > 1 && t[1] == '}' then Ok(Obj([]), t[2..]) else ParseMembers(t[1..], [])
    else if t[0] == '[' then
      if |t| > 1 && t[1] == ']' then Ok(Arr([]), t[2..]) else ParseItems(t[1..], [])
    else if t[0] == '"' then
      var (str, rest) :- StringBody(t[1..]);
      Ok(Str(str), rest)
    else if t[0] == '-' || IsDigit(t[0]) then ParseNumber(t)
    else if t[0] == 't' then
      var (_, rest) :- Literal(t, "true");
      Ok(Bool(true), rest)
    else if t[0] == 'f' then
      var (_, rest) :- Literal(t, "false");
      Ok(Bool(false), rest)
    else if t[0] == 'n' then
      var (_, rest) :- Literal(t, "null");
      Ok(Null, rest)
    else Fail(ReadException)
  }

  /** The loop of _readArray, from the start of an item. */
  function ParseItems(s: string, done: seq<Json>): (r: Read<Json>)
    ensures r.Ok? ==> |r.rest| < |s|
    decreases |s|, 3
  {
    var (item, s1) :- Parse(s);
    var (_, s2) :- EatWhitespace(s1);
    if s2 == [] then Fail(StopIteration)
    else if s2[0] == ']' then Ok(Arr(done + [item]), s2[1..])
    else if s2[0] != ',' then Fail(ReadException)
    else ParseItems(s2[1..], done + [item])
  }

  /** The loop of _readObject, from the start of a key. */
  function ParseMembers(s: string, done: seq<Member>): (r: Read<Json>)
    ensures r.Ok? ==> |r.rest| < |s|
    decreases |s|, 3
  {
    var (key, s1) :- Parse(s);
    if !key.Str? then Fail(ReadException) else
    var (_, s2) :- EatWhitespace(s1);
    if s2 == [] then Fail(StopIteration)
    else if s2[0] != ':' then Fail(ReadException) else
    var (_, s3) :- EatWhitespace(s2[1..]);
    var (val, s4) :- Parse(s3);
    var (_, s5) :- EatWhitespace(s4);
    var done' := Update(done, key.s, val);
    if s5 == [] then Fail(StopIteration)
    else if s5[0] == '}' then Ok(Obj(done'), s5[1..])
    else if s5[0] != ',' then Fail(ReadException)
    else ParseMembers(s5[1..], done')
  }
}
