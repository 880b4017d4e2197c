/** Reading back what was written gives the value, for every value and both settings of the slash escape. */
module JsonLaws {
  import opened Json

  // ---- strings ----

  /** What the chain of replacements makes of one character. */
  function EscapedChar(c: char, slash: bool): string {
    if c == '\\' then "\\\\"
    else if c == '/' && slash then "\\/"
    else if c == '"' then "\\\""
    else if c == BACKSPACE then "\\b"
    else if c == FORMFEED then "\\f"
    else if c == '\n' then "\\n"
    else if c == '\r' then "\\r"
    else if c == '\t' then "\\t"
    else [c]
  }

  function EscapeEach(s: string, slash: bool): string {
    if s == [] then [] else EscapedChar(s[0], slash) + EscapeEach(s[1..], slash)
  }

  lemma {:induction false} ReplaceConcat(a: string, b: string, c: char, rep: string)
    ensures Replace(a + b, c, rep) == Replace(a, c, rep) + Replace(b, c, rep)
  {
    if a == [] {
      assert a + b == b;
    } else {
      ReplaceConcat(a[1..], b, c, rep);
      var head := if a[0] == c then rep else [a[0]];
      assert (a + b)[1..] == a[1..] + b && (a + b)[0] == a[0];
      var x, y := Replace(a[1..], c, rep), Replace(b, c, rep);
      assert head + (x + y) == (head + x) + y;
    }
  }

  lemma EscapedConcat(a: string, b: string, slash: bool)
    ensures Escaped(a + b, slash) == Escaped(a, slash) + Escaped(b, slash)
  {
    hide Replace;
    ReplaceConcat(a, b, '\\', "\\\\");
    var (a1, b1) := (Replace(a, '\\', "\\\\"), Replace(b, '\\', "\\\\"));
    ReplaceConcat(a1, b1, '/', "\\/");
    var (a2, b2) := if slash then (Replace(a1, '/', "\\/"), Replace(b1, '/', "\\/")) else (a1, b1);
    ReplaceConcat(a2, b2, '"', "\\\"");
    var (a3, b3) := (Replace(a2, '"', "\\\""), Replace(b2, '"', "\\\""));
    ReplaceConcat(a3, b3, BACKSPACE, "\\b");
    var (a4, b4) := (Replace(a3, BACKSPACE, "\\b"), Replace(b3, BACKSPACE, "\\b"));
    ReplaceConcat(a4, b4, FORMFEED, "\\f");
    var (a5, b5) := (Replace(a4, FORMFEED, "\\f"), Replace(b4, FORMFEED, "\\f"));
    ReplaceConcat(a5, b5, '\n', "\\n");
    var (a6, b6) := (Replace(a5, '\n', "\\n"), Replace(b5, '\n', "\\n"));
    ReplaceConcat(a6, b6, '\r', "\\r");
    var (a7, b7) := (Replace(a6, '\r', "\\r"), Replace(b6, '\r', "\\r"));
    ReplaceConcat(a7, b7, '\t', "\\t");
  }

  lemma ReplaceOne(a: char, c: char, rep: string)
    ensures Replace([a], c, rep) == if a == c then rep else [a]
  {
    assert [a][1..] == [];
  }

  lemma ReplaceTwo(a: char, b: char, c: char, rep: string)
    requires a != c && b != c
    ensures Replace([a, b], c, rep) == [a, b]
  {
    ReplaceOne(b, c, rep);
    assert [a, b][1..] == [b];
  }

  /** An escape already made is left alone by the replacements that follow. */
  lemma EscapedOne(c: char, slash: bool)
    ensures Escaped([c], slash) == EscapedChar(c, slash)
  {
    hide Replace;
    forall a: char, d: char, rep: string
      ensures Replace([a], d, rep) == if a == d then rep else [a]
    {
      ReplaceOne(a, d, rep);
    }
    forall a: char, b: char, d: char, rep: string | a != d && b != d
      ensures Replace([a, b], d, rep) == [a, b]
    {
      ReplaceTwo(a, b, d, rep);
    }
  }

  /** The whole-string replacements, one after the other, are the same as escaping each character by itself. */
  lemma {:induction false} EscapedIsEach(s: string, slash: bool)
    ensures Escaped(s, slash) == EscapeEach(s, slash)
  {
    if s != [] {
      hide Escaped, EscapedChar;
      EscapedIsEach(s[1..], slash);
      EscapedOne(s[0], slash);
      EscapedConcat([s[0]], s[1..], slash);
      assert [s[0]] + s[1..] == s;
    }
  }

  lemma StringCharBack(c: char, slash: bool, rest: string)
    ensures StringChar(EscapedChar(c, slash) + rest) == Ok(c, rest)
    ensures EscapedChar(c, slash) != [] && EscapedChar(c, slash)[0] != '"'
  {
  }

  lemma {:induction false} StringBodyBack(s: string, slash: bool, rest: string)
    ensures StringBody(EscapeEach(s, slash) + "\"" + rest) == Ok(s, rest)
  {
    hide EscapedChar, StringChar;
    if s == [] {
      assert [] + "\"" + rest == "\"" + rest;
      assert ("\"" + rest)[1..] == rest;
    } else {
      var tail := EscapeEach(s[1..], slash) + "\"" + rest;
      StringCharBack(s[0], slash, tail);
      StringBodyBack(s[1..], slash, rest);
      assert EscapeEach(s, slash) + "\"" + rest == EscapedChar(s[0], slash) + tail;
      assert [s[0]] + s[1..] == s;
    }
  }

  // ---- numbers ----

  lemma {:induction false} DigitsBack(n: nat)
    ensures ValueOf(Digits(n)) == n
  {
    if n < 10 {
      assert [Digit(n)][..0] == [];
    } else {
      DigitsBack(n / 10);
      var d := Digits(n / 10);
      assert (d + [Digit(n % 10)])[..|d|] == d;
    }
  }

  lemma {:induction false} LeadingDigitsOf(d: string, rest: string)
    requires forall i :: 0 <= i < |d| ==> IsDigit(d[i])
    requires rest == [] || !IsDigit(rest[0])
    ensures LeadingDigits(d + rest) == |d|
  {
    if d == [] {
      assert d + rest == rest;
    } else {
      LeadingDigitsOf(d[1..], rest);
      assert (d + rest)[1..] == d[1..] + rest;
    }
  }

  /** What may follow a number: the number does not run on into it. */
  predicate Delimits(rest: string) {
    rest == [] || (!IsDigit(rest[0]) && rest[0] != '.' && rest[0] != 'e')
  }

  lemma NumberBack(n: int, rest: string)
    requires Delimits(rest)
    ensures ParseNumber(Decimal(n) + rest) == Ok(Int(n), rest)
  {
    hide Digits, ValueOf, LeadingDigits;
    var s := Decimal(n) + rest;
    var d := Digits(if n < 0 then -n else n);
    DigitsBack(if n < 0 then -n else n);
    var tail := if n < 0 then d else d[1..];
    LeadingDigitsOf(tail, rest);
    assert s[1..] == tail + rest;
    assert s[1..][..|tail|] == tail && s[1..][|tail|..] == rest;
    assert [d[0]] + d[1..] == d;
  }

  // ---- values ----

  /** No written value starts with a blank or a comment. */
  lemma TextStarts(v: Json, slash: bool)
    ensures Text(v, slash) != [] && !IsSpace(Text(v, slash)[0]) && Text(v, slash)[0] != '/' &&
            Text(v, slash)[0] != ']' &&
            Text(v, slash)[0] != '}'
  {
    hide Decimal, Escaped, TextItems, TextMembers;
  }

  lemma NoBlank(s: string)
    requires s != [] ==> !IsSpace(s[0]) && s[0] != '/'
    ensures EatWhitespace(s) == Ok((), s)
  {
  }

  lemma {:induction false} LiteralBack(word: string, rest: string)
    ensures Literal(word + rest, word) == Ok((), rest)
  {
    if word == [] {
      assert word + rest == rest;
    } else {
      LiteralBack(word[1..], rest);
      assert (word + rest)[1..] == word[1..] + rest;
    }
  }

  lemma TextStr(s: string, slash: bool)
    ensures Text(Str(s), slash) == Quoted(s, slash)
  {
  }

  lemma ScalarBack(v: Json, slash: bool, rest: string)
    requires !v.Arr? && !v.Obj? && Delimits(rest)
    ensures Parse(Text(v, slash) + rest) == Ok(v, rest)
  {
    hide Escaped, Decimal, ParseNumber, StringBody, EatWhitespace, Literal;
    var s := Text(v, slash) + rest;
    TextStarts(v, slash);
    assert s[0] == Text(v, slash)[0];
    NoBlank(s);
    match v
    case Null => LiteralBack("null", rest);
    case Bool(b) => LiteralBack(if b then "true" else "false", rest);
    case Int(n) =>
      NumberBack(n, rest);
    case Str(str) =>
      StringBack(str, slash, rest);
  }

  lemma StringBack(str: string, slash: bool, rest: string)
    ensures var s := Text(Str(str), slash) + rest; s[0] == '"' && StringBody(s[1..]) == Ok(str, rest)
  {
    hide Escaped, StringBody;
    var s := Text(Str(str), slash) + rest;
    EscapedIsEach(str, slash);
    StringBodyBack(str, slash, rest);
    assert s[1..] == EscapeEach(str, slash) + "\"" + rest;
  }

  lemma UpdateNew(members: seq<Member>, key: string, val: Json)
    requires forall i :: 0 <= i < |members| ==> members[i].key != key
    ensures Update(members, key, val) == members + [Member(key, val)]
  {
    if members != [] {
      UpdateNew(members[1..], key, val);
      assert members == [members[0]] + members[1..];
    }
  }

  // How a text that starts with a bracket is read.

  lemma ParseArray(s: string)
    requires |s| > 1 && s[0] == '['
    ensures Parse(s) == if s[1] == ']' then Ok(Arr([]), s[2..]) else ParseItems(s[1..], [])
  {
    hide EatWhitespace, ParseItems;
    NoBlank(s);
  }

  lemma ParseObject(s: string)
    requires |s| > 1 && s[0] == '{'
    ensures Parse(s) == if s[1] == '}' then Ok(Obj([]), s[2..]) else ParseMembers(s[1..], [])
  {
    hide EatWhitespace, ParseMembers;
    NoBlank(s);
  }

  /** JSON round trip: reading the written text, whatever follows it, gives the value back and stops right after it. */
  lemma {:induction false} RoundTrip(v: Json, slash: bool, rest: string)
    requires Valid(v) && Delimits(rest)
    ensures Parse(Text(v, slash) + rest) == Ok(v, rest)
    decreases v, 1
  {
    hide Parse, Text, Valid;
    if v.Arr? {
      RoundTripArr(v, slash, rest);
    } else if v.Obj? {
      RoundTripObj(v, slash, rest);
    } else {
      ScalarBack(v, slash, rest);
    }
  }

  lemma {:induction false} RoundTripArr(v: Json, slash: bool, rest: string)
    requires v.Arr? && Valid(v)
    ensures Parse(Text(v, slash) + rest) == Ok(v, rest)
    decreases v, 0
  {
    hide Parse, ParseItems, TextItems;
    var s, body := Text(v, slash) + rest, TextItems(v.items, slash) + "]" + rest;
    assert s == "[" + body;
    ParseArray(s);
    if v.items == [] {
      ItemsText(v.items, slash);
    } else {
      RoundTripItems(v.items, slash, rest, []);
      ItemsText(v.items, slash);
      assert s[1..] == body && [] + v.items == v.items;
    }
  }

  /** A list's text starts like its first item, which never starts with a bracket. */
  lemma ItemsText(items: seq<Json>, slash: bool)
    ensures items == [] ==> TextItems(items, slash) == []
    ensures items != [] ==> TextItems(items, slash) != [] && TextItems(items, slash)[0] != ']'
  {
    hide Text;
    if items != [] {
      TextStarts(items[0], slash);
    }
  }

  lemma {:induction false} RoundTripObj(v: Json, slash: bool, rest: string)
    requires v.Obj? && Valid(v)
    ensures Parse(Text(v, slash) + rest) == Ok(v, rest)
    decreases v, 0
  {
    hide Parse, ParseMembers, Escaped;
    var s := Text(v, slash) + rest;
    ParseObject(s);
    if v.members == [] {
      assert s == "{}" + rest;
    } else {
      assert [] + v.members == v.members;
      RoundTripMembers(v.members, slash, rest, []);
      assert s[1..] == TextMembers(v.members, slash) + "}" + rest;
    }
  }

  lemma {:induction false} RoundTripItems(items: seq<Json>, slash: bool, rest: string, done: seq<Json>)
    requires items != [] && forall i :: 0 <= i < |items| ==> Valid(items[i])
    ensures ParseItems(TextItems(items, slash) + "]" + rest, done) == Ok(Arr(done + items), rest)
    decreases items, 0
  {
    hide Text, EatWhitespace, Parse;
    var s := TextItems(items, slash) + "]" + rest;
    if |items| == 1 {
      var tail := "]" + rest;
      RoundTrip(items[0], slash, tail);
      assert s == Text(items[0], slash) + tail;
      NoBlank(tail);
      assert items == [items[0]];
      assert tail[1..] == rest;
    } else {
      var more := TextItems(items[1..], slash) + "]" + rest;
      var tail := "," + more;
      RoundTrip(items[0], slash, tail);
      assert s == Text(items[0], slash) + tail;
      NoBlank(tail);
      assert tail[1..] == more;
      RoundTripItems(items[1..], slash, rest, done + [items[0]]);
      assert done + [items[0]] + items[1..] == done + items;
    }
  }

  lemma {:induction false} RoundTripMembers(members: seq<Member>, slash: bool, rest: string,
                                            done: seq<Member>)
    requires members != [] && ValidMembers(members) && DistinctKeys(done + members)
    ensures ParseMembers(TextMembers(members, slash) + "}" + rest, done) == Ok(Obj(done + members), rest)
    decreases members, 0
  {
    hide Text, Parse, Quoted, TextMember, Update, ParseMembers, TextMembers;
    var m := members[0];
    var next := TextMembers(members[1..], slash) + "}" + rest;
    var more := if |members| == 1 then "}" + rest else "," + next;
    MembersText(members, slash, rest);
    RoundTrip(m.val, slash, more);
    MemberStep(m, slash, more, done);
    NewKey(done, members);
    UpdateNew(done, m.key, m.val);
    hide ValidMembers, DistinctKeys;
    assert done + [m] + members[1..] == done + members;
    if |members| == 1 {
      assert members == [m] && more[1..] == rest;
    } else {
      assert more[1..] == next;
      RoundTripMembers(members[1..], slash, rest, done + [m]);
    }
  }

  lemma NewKey(done: seq<Member>, members: seq<Member>)
    requires members != [] && ValidMembers(members) && DistinctKeys(done + members)
    ensures forall i :: 0 <= i < |done| ==> done[i].key != members[0].key
    ensures ValidMembers(members[1..]) && Valid(members[0].val)
  {
    hide Valid;
    forall i | 0 <= i < |done|
      ensures done[i].key != members[0].key
    {
      assert (done + members)[i] == done[i] && (done + members)[|done|] == members[0];
    }
  }

  /** One round of the object loop, over a key and a value that is known to be read back. */
  lemma MemberStep(m: Member, slash: bool, more: string, done: seq<Member>)
    requires more != [] && (more[0] == '}' || more[0] == ',')
    requires Parse(Text(m.val, slash) + more) == Ok(m.val, more)
    ensures ParseMembers(Quoted(m.key, slash) + (":" + (Text(m.val, slash) + more)), done) ==
            if more[0] == '}' then Ok(Obj(Update(done, m.key, m.val)), more[1..])
            else ParseMembers(more[1..], Update(done, m.key, m.val))
  {
    hide Text, EatWhitespace, Parse, Quoted, Update;
    var s2 := ":" + (Text(m.val, slash) + more);
    TextStr(m.key, slash);
    ScalarBack(Str(m.key), slash, s2);
    NoBlank(s2);
    assert s2[1..] == Text(m.val, slash) + more;
    TextStarts(m.val, slash);
    NoBlank(s2[1..]);
    NoBlank(more);
  }

  /** The text of a member list, taken apart at its first key and value. */
  lemma MembersText(members: seq<Member>, slash: bool, rest: string)
    requires members != []
    ensures var more := if |members| == 1 then "}" + rest else "," + (TextMembers(members[1..], slash) + "}" + rest);
            TextMembers(members, slash) + "}" + rest ==
            Quoted(members[0].key, slash) + (":" + (Text(members[0].val, slash) + more))
  {
    hide Text, Quoted;
  }
}
