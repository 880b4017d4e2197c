/** JsonWriter and JsonReader of tools/localjson.py as objects: an output buffer that grows, and an index that moves
    over the text. */
module JsonIO {
  import opened Json
  import opened JsonLaws

  class JsonWriter {
    var results: string
    const slash: bool

    constructor (slash: bool)
      ensures results == [] && this.slash == slash
    {
      results, this.slash := [], slash;
    }

    method Append(s: string)
      modifies this
      ensures results == old(results) + s
    {
      results := results + s;
    }

    method Write(v: Json)
      modifies this
      ensures results == old(results) + Text(v, slash)
      decreases v, 1
    {
      hide Escaped, Decimal;
      match v
      case Obj(members) => WriteObject(members);
      case Arr(items) => WriteArray(items);
      case Str(s) =>
        Append("\"");
        Append(Escaped(s, slash));
        Append("\"");
      case Int(n) => Append(Decimal(n));
      case Bool(b) => Append(if b then "true" else "false");
      case Null => Append("null");
    }

    method WriteArray(items: seq<Json>)
      modifies this
      ensures results == old(results) + "[" + TextItems(items, slash) + "]"
      decreases items, 0
    {
      hide Text;
      var n := |items|;
      Append("[");
      assert items[0..] == items;
      for i := 0 to |items|
        invariant n == |items| - i
        invariant results + TextItems(items[i..], slash) == old(results) + "[" + TextItems(items, slash)
      {
        ghost var before := results;
        assert items[i..][1..] == items[i + 1..] && items[i..][0] == items[i];
        Write(items[i]);
        n := n - 1;
        if n > 0 {
          Append(",");
          assert before + (Text(items[i], slash) + ("," + TextItems(items[i + 1..], slash))) ==
                 results + TextItems(items[i + 1..], slash);
        }
      }
      Append("]");
    }

    method WriteObject(members: seq<Member>)
      modifies this
      ensures results == old(results) + "{" + TextMembers(members, slash) + "}"
      decreases members, 0
    {
      hide TextMember;
      var n := |members|;
      Append("{");
      assert members[0..] == members;
      for i := 0 to |members|
        invariant n == |members| - i
        invariant results + TextMembers(members[i..], slash) == old(results) + "{" + TextMembers(members, slash)
      {
        ghost var before := results;
        assert members[i..][1..] == members[i + 1..] && members[i..][0] == members[i];
        WriteMember(members[i]);
        n := n - 1;
        if n > 0 {
          Append(",");
          assert before + (TextMember(members[i], slash) + ("," + TextMembers(members[i + 1..], slash))) ==
                 results + TextMembers(members[i + 1..], slash);
        }
      }
      Append("}");
    }

    method WriteMember(m: Member)
      modifies this
      ensures results == old(results) + TextMember(m, slash)
      decreases m, 2
    {
      hide Text, Quoted;
      WriteKey(m.key);
      Append(":");
      Write(m.val);
    }

    /** _write of a key, which is a string. */
    method WriteKey(key: string)
      modifies this
      ensures results == old(results) + Quoted(key, slash)
    {
      hide Escaped;
      Append("\"");
      Append(Escaped(key, slash));
      Append("\"");
    }
  }

  lemma StringCharCases(s: string)
    ensures s == [] ==> StringChar(s) == Fail(ReadException)
    ensures s != [] && s[0] != '\\' ==> StringChar(s) == Ok(s[0], s[1..])
  {
  }

  datatype Res<+T> = Got(value: T) | Failed(e: Error)

  lemma LeadingStep(s: string)
    ensures LeadingDigits(s) == if s != [] && IsDigit(s[0]) then 1 + LeadingDigits(s[1..]) else 0
  {
  }

  lemma NumberCases(s: string, digits: string, rest: string)
    requires s != [] && (s[0] == '-' || IsDigit(s[0]))
    requires var n := LeadingDigits(s[1..]); digits == s[1..][..n] && rest == s[1..][n..]
    ensures ParseNumber(s) ==
            if Continues(rest) then Fail(Float)
            else if s[0] == '-' then if digits == [] then Fail(ReadException) else Ok(Int(0 - ValueOf(digits)), rest)
            else Ok(Int(ValueOf([s[0]] + digits)), rest)
  {
    hide ValueOf, LeadingDigits;
  }

  class JsonReader {
    const text: string
    var index: int

    ghost predicate Valid()
      reads this
    {
      -1 <= index < |text|
    }

    /** The text still ahead of the generator. */
    ghost function Rest(): string
      reads this
      requires Valid()
    {
      text[index + 1..]
    }

    /** The outcome of a reading method agrees with its specification: same value and same place, or same error. */
    ghost predicate Agrees<T(!new)>(r: Res<T>, spec: Read<T>)
      reads this
    {
      match r
      case Got(value) => Valid() && spec == Ok(value, Rest())
      case Failed(e) => spec == Fail(e)
    }

    constructor (text: string)
      ensures Valid() && this.text == text && Rest() == text
    {
      this.text, index := text, -1;
    }

    method Peek() returns (some: bool, c: char)
      requires Valid()
      ensures some <==> Rest() != []
      ensures some ==> c == Rest()[0]
    {
      some, c := index + 1 < |text|, ' ';
      if some {
        c := text[index + 1];
      }
    }

    /** next(): false is StopIteration. */
    method Next() returns (some: bool, c: char)
      requires Valid()
      modifies this
      ensures some <==> old(Rest()) != []
      ensures some ==> Valid() && c == old(Rest())[0] && Rest() == old(Rest())[1..]
      ensures some ==> 0 <= index < |text| && text[index] == c
    {
      some, c := index + 1 < |text|, ' ';
      index := index + 1;
      if some {
        c := text[index];
      }
    }

    /** putback(): the character just read is ahead again. */
    method Putback()
      requires Valid() && index >= 0
      modifies this
      ensures Valid() && Rest() == [old(text[index])] + old(Rest())
    {
      index := index - 1;
    }

    // ---- blanks and comments ----

    method ReadDoubleSolidusComment()
      requires Valid()
      modifies this
      ensures Valid() && Rest() == AfterLine(old(Rest()))
    {
      var some, ch := Peek();
      while some && ch != '\r' && ch != '\n'
        invariant Valid() && AfterLine(Rest()) == AfterLine(old(Rest()))
        invariant (some <==> Rest() != []) && (some ==> ch == Rest()[0])
        decreases |Rest()|
      {
        var _, _ := Next();
        some, ch := Peek();
      }
      if some {
        var _, _ := Next();
      }
    }

    method ReadCStyleComment() returns (r: Res<()>)
      requires Valid()
      modifies this
      ensures Agrees(r, AfterBlock(old(Rest())))
    {
      var done := false;
      while !done
        invariant Valid()
        invariant AfterBlock(old(Rest())) ==
                  if !done then AfterBlock(Rest())
                  else if Rest() == [] then Fail(ReadException) else Ok((), Rest()[1..])
        invariant done ==> Rest() != []
        decreases !done, |Rest()|
      {
        var some, ch := Next();
        if !some {
          return Failed(ReadException);
        }
        var more, ahead := Peek();
        done := ch == '*' && more && ahead == '/';
        if !done && ch == '/' && more && ahead == '*' {
          return Failed(ReadException);
        }
      }
      var _, _ := Next();
      return Got(());
    }

    method ReadComment() returns (r: Res<()>)
      requires Valid() && Rest() != [] && Rest()[0] == '/'
      modifies this
      ensures Agrees(r, AfterComment(old(Rest())))
    {
      ghost var s := Rest();
      var _, _ := Next();
      var some, second := Next();
      if !some {
        return Failed(StopIteration);
      }
      assert Rest() == s[2..];
      if second == '/' {
        ReadDoubleSolidusComment();
        r := Got(());
      } else if second == '*' {
        r := ReadCStyleComment();
      } else {
        r := Failed(ReadException);
      }
    }

    method EatBlanks() returns (r: Res<()>)
      requires Valid()
      modifies this
      ensures Agrees(r, EatWhitespace(old(Rest())))
    {
      var some, p := Peek();
      while some && (IsSpace(p) || p == '/')
        invariant Valid() && EatWhitespace(old(Rest())) == EatWhitespace(Rest())
        invariant (some <==> Rest() != []) && (some ==> p == Rest()[0])
        decreases |Rest()|
      {
        if p == '/' {
          var c := ReadComment();
          if c.Failed? {
            return Failed(c.e);
          }
        } else {
          var _, _ := Next();
        }
        some, p := Peek();
      }
      r := Got(());
    }

    // ---- scalars ----

    /** A chain of _assertNext. */
    method ReadWord(word: string) returns (r: Res<()>)
      requires Valid()
      modifies this
      ensures Agrees(r, Literal(old(Rest()), word))
    {
      assert word[0..] == word;
      for i := 0 to |word|
        invariant Valid() && Literal(old(Rest()), word) == Literal(Rest(), word[i..])
      {
        assert word[i..][1..] == word[i + 1..];
        var some, ch := Next();
        if !some {
          return Failed(StopIteration);
        }
        if ch != word[i] {
          return Failed(ReadException);
        }
      }
      assert word[|word|..] == [];
      r := Got(());
    }

    method ReadDigits() returns (digits: string)
      requires Valid()
      modifies this
      ensures Valid()
      ensures var n := LeadingDigits(old(Rest())); digits == old(Rest())[..n] && Rest() == old(Rest())[n..]
    {
      hide LeadingDigits, Rest;
      ghost var t := Rest();
      digits := [];
      var some, p := Peek();
      while some && IsDigit(p)
        invariant Valid() && t == digits + Rest()
        invariant LeadingDigits(t) == |digits| + LeadingDigits(Rest())
        invariant (some <==> Rest() != []) && (some ==> p == Rest()[0])
        decreases |Rest()|
      {
        ghost var ahead := Rest();
        LeadingStep(ahead);
        var _, c := Next();
        assert digits + ahead == digits + [c] + ahead[1..];
        digits := digits + [c];
        some, p := Peek();
      }
      LeadingStep(Rest());
      assert t[..|digits|] == digits && t[|digits|..] == Rest();
    }

    method ReadNumber() returns (r: Res<Json>)
      requires Valid() && Rest() != [] && (Rest()[0] == '-' || IsDigit(Rest()[0]))
      modifies this
      ensures Agrees(r, ParseNumber(old(Rest())))
    {
      hide ValueOf, LeadingDigits, ParseNumber;
      ghost var s := Rest();
      var _, first := Next();
      var digits := ReadDigits();
      NumberCases(s, digits, Rest());
      var some, p := Peek();
      if some && (p == '.' || p == 'e') {
        return Failed(Float);
      }
      if first == '-' {
        if digits == [] {
          return Failed(ReadException);
        }
        return Got(Int(0 - ValueOf(digits)));
      }
      r := Got(Int(ValueOf([first] + digits)));
    }

    /** The character an escape stands for, from just after its backslash. */
    method ReadEscape() returns (r: Res<char>)
      requires Valid()
      modifies this
      ensures Agrees(r, StringChar("\\" + old(Rest())))
    {
      hide HexChar;
      ghost var s := "\\" + Rest();
      var some, ch := Next();
      if !some {
        return Failed(ReadException);
      }
      assert Rest() == s[2..];
      if ch == 'u' {
        r := ReadHex();
      } else if ch == 'b' {
        r := Got(BACKSPACE);
      } else if ch == 'r' {
        r := Got('\r');
      } else if ch == 'n' {
        r := Got('\n');
      } else if ch == 'f' {
        r := Got(FORMFEED);
      } else if ch == 't' {
        r := Got('\t');
      } else if ch == '"' || ch == '/' || ch == '\\' {
        r := Got(ch);
      } else {
        r := Failed(ReadException);
      }
    }

    method ReadHex() returns (r: Res<char>)
      requires Valid()
      modifies this
      ensures Agrees(r, HexChar(old(Rest())))
    {
      ghost var s := Rest();
      var digits: string := [];
      while |digits| < 4
        invariant Valid() && |digits| <= 4 && |digits| <= |s| && digits == s[..|digits|] && Rest() == s[|digits|..]
        decreases 4 - |digits|
      {
        var some, c := Next();
        if !some {
          return Failed(ReadException);
        }
        digits := digits + [c];
      }
      var h3, h2, h1, h0 := HexValue(digits[0]), HexValue(digits[1]), HexValue(digits[2]), HexValue(digits[3]);
      if h3.Fail? || h2.Fail? || h1.Fail? || h0.Fail? {
        return Failed(ReadException);
      }
      var n := 4096 * h3.value + 256 * h2.value + 16 * h1.value + h0.value;
      r := if n < 128 then Got(n as char) else Failed(Unicode);
    }

    /** The characters of a string, up to its closing quote, which is put back. */
    method ReadCharacters() returns (r: Res<string>)
      requires Valid()
      modifies this
      ensures var b := StringBody(old(Rest()));
              if r.Got? then Valid() && Rest() != [] && Rest()[0] == '"' && b == Ok(r.value, Rest()[1..])
              else b == Fail(r.e)
    {
      hide StringChar, Rest;
      ghost var t := Rest();
      var result: string := [];
      if StringBody(t).Ok? {
        assert [] + StringBody(t).value == StringBody(t).value;
      }
      while true
        invariant Valid()
        invariant var b := StringBody(Rest());
                  StringBody(t) == if b.Ok? then Ok(result + b.value, b.rest) else b
        decreases |Rest()|
      {
        ghost var at := Rest();
        StringCharCases(at);
        var some, ch := Next();
        if !some {
          return Failed(ReadException);
        }
        if ch == '"' {
          Putback();
          assert at == [at[0]] + at[1..] && result + [] == result;
          return Got(result);
        }
        if ch == '\\' {
          assert "\\" + Rest() == at;
          var c := ReadEscape();
          if c.Failed? {
            return Failed(c.e);
          }
          ch := c.value;
        }
        ghost var b := StringBody(Rest());
        if b.Ok? {
          assert result + ([ch] + b.value) == (result + [ch]) + b.value;
        }
        result := result + [ch];
      }
    }

    method ReadString() returns (r: Res<string>)
      requires Valid() && Rest() != [] && Rest()[0] == '"'
      modifies this
      ensures Agrees(r, StringBody(old(Rest())[1..]))
    {
      hide StringBody;
      var _, _ := Next();
      r := ReadCharacters();
      if r.Got? {
        var _, _ := Next();
      }
    }

    // ---- values ----

    method ReadValue() returns (r: Res<Json>)
      requires Valid()
      modifies this
      ensures Agrees(r, Parse(old(Rest())))
      decreases |Rest()|, 2
    {
      hide EatWhitespace, StringBody, ParseNumber, Literal;
      var e := EatBlanks();
      if e.Failed? {
        return Failed(e.e);
      }
      ghost var t := Rest();
      var some, p := Peek();
      if !some {
        return Failed(ReadException);
      }
      if p == '{' {
        r := ReadObject();
      } else if p == '[' {
        r := ReadArray();
      } else if p == '"' {
        var s := ReadString();
        r := if s.Got? then Got(Str(s.value)) else Failed(s.e);
      } else if p == '-' || IsDigit(p) {
        r := ReadNumber();
      } else if p == 't' {
        var w := ReadWord("true");
        r := if w.Got? then Got(Bool(true)) else Failed(w.e);
      } else if p == 'f' {
        var w := ReadWord("false");
        r := if w.Got? then Got(Bool(false)) else Failed(w.e);
      } else if p == 'n' {
        var w := ReadWord("null");
        r := if w.Got? then Got(Null) else Failed(w.e);
      } else {
        r := Failed(ReadException);
      }
    }

    method ReadArray() returns (r: Res<Json>)
      requires Valid() && Rest() != [] && Rest()[0] == '['
      modifies this
      ensures var t := old(Rest());
              Agrees(r, if |t| > 1 && t[1] == ']' then Ok(Arr([]), t[2..]) else ParseItems(t[1..], []))
      decreases |Rest()|, 1
    {
      hide EatWhitespace, Parse;
      ghost var t := Rest();
      var result: seq<Json> := [];
      var _, _ := Next();
      var some, p := Peek();
      var done := some && p == ']';
      while !done
        invariant Valid() && |Rest()| < |t|
        invariant done ==> Rest() != [] && Rest()[0] == ']'
        invariant (if |t| > 1 && t[1] == ']' then Ok(Arr([]), t[2..]) else ParseItems(t[1..], [])) ==
                  if done then Ok(Arr(result), Rest()[1..]) else ParseItems(Rest(), result)
        decreases !done, |Rest()|
      {
        var item := ReadValue();
        if item.Failed? {
          return Failed(item.e);
        }
        var e := EatBlanks();
        if e.Failed? {
          return Failed(e.e);
        }
        result := result + [item.value];
        some, p := Peek();
        done := some && p == ']';
        if !done {
          var more, ch := Next();
          if !more {
            return Failed(StopIteration);
          }
          if ch != ',' {
            return Failed(ReadException);
          }
        }
      }
      var _, _ := Next();
      r := Got(Arr(result));
    }

    method ReadObject() returns (r: Res<Json>)
      requires Valid() && Rest() != [] && Rest()[0] == '{'
      modifies this
      ensures var t := old(Rest());
              Agrees(r, if |t| > 1 && t[1] == '}' then Ok(Obj([]), t[2..]) else ParseMembers(t[1..], []))
      decreases |Rest()|, 1
    {
      hide EatWhitespace, Parse, Update;
      ghost var t := Rest();
      var result: seq<Member> := [];
      var _, _ := Next();
      var some, p := Peek();
      var done := some && p == '}';
      while !done
        invariant Valid() && |Rest()| < |t|
        invariant done ==> Rest() != [] && Rest()[0] == '}'
        invariant (if |t| > 1 && t[1] == '}' then Ok(Obj([]), t[2..]) else ParseMembers(t[1..], [])) ==
                  if done then Ok(Obj(result), Rest()[1..]) else ParseMembers(Rest(), result)
        decreases !done, |Rest()|
      {
        var key := ReadValue();
        if key.Failed? {
          return Failed(key.e);
        }
        if !key.value.Str? {
          return Failed(ReadException);
        }
        var e := EatBlanks();
        if e.Failed? {
          return Failed(e.e);
        }
        var more, ch := Next();
        if !more {
          return Failed(StopIteration);
        }
        if ch != ':' {
          return Failed(ReadException);
        }
        e := EatBlanks();
        if e.Failed? {
          return Failed(e.e);
        }
        var val := ReadValue();
        if val.Failed? {
          return Failed(val.e);
        }
        e := EatBlanks();
        if e.Failed? {
          return Failed(e.e);
        }
        result := Update(result, key.value.s, val.value);
        some, p := Peek();
        done := some && p == '}';
        if !done {
          more, ch := Next();
          if !more {
            return Failed(StopIteration);
          }
          if ch != ',' {
            return Failed(ReadException);
          }
        }
      }
      var _, _ := Next();
      r := Got(Obj(result));
    }
  }

  /** read(write(v)) is v, and the reader has then consumed exactly the written text. */
  method WriteThenRead(v: Json, slash: bool) returns (text: string, r: Res<Json>, left: nat)
    requires Valid(v)
    ensures text == Text(v, slash) && r == Got(v) && left == 0
  {
    hide Text, Parse, Valid;
    var w := new JsonWriter(slash);
    w.Write(v);
    text := w.results;
    assert [] + Text(v, slash) == text;
    var reader := new JsonReader(text);
    RoundTrip(v, slash, []);
    assert text + [] == text;
    r := reader.ReadValue();
    left := |text| - (reader.index + 1);
  }
}
