/** The text form of a badge's QR payload: a JSON object whose members are
    strings, as `JSON.stringify` writes it and as `JSON.parse` reads it back.

    `Stringify` follows the string quoting of `JSON.stringify` (the two-char
    escapes for quote, backslash, \b \t \n \f \r and `\u00xx` for the other
    control characters). `Parse` accepts the JSON grammar restricted to one
    object whose member values are strings, with insignificant whitespace
    anywhere between tokens, every escape form on input, and "last duplicate
    key wins"; anything else is `None` (a parse failure). */
module QrCodec {
  import opened Base

  /** The four whitespace characters of the JSON grammar. */
  predicate IsJsonWs(c: char)
  {
    c == ' ' || c == '\t' || c == '\n' || c == '\r'
  }

  function SkipWs(s: string): (r: string)
    ensures |r| <= |s|
    ensures r == [] || !IsJsonWs(r[0])
  {
    if s != [] && IsJsonWs(s[0]) then SkipWs(s[1..]) else s
  }

  /** Lower-case hexadecimal digit, as `JSON.stringify` writes them. */
  function HexDigit(n: nat): char
    requires n < 16
  {
    if n < 10 then (48 + n) as char else (87 + n) as char
  }

  function HexValue(c: char): (r: Option<nat>)
    ensures r.Some? ==> r.value < 16
  {
    if '0' <= c <= '9' then Some(c as int - 48)
    else if 'a' <= c <= 'f' then Some(c as int - 87)
    else if 'A' <= c <= 'F' then Some(c as int - 55)
    else None
  }

  function EscapeChar(c: char): string
  {
    if c == '"' then ['\\', '"']
    else if c == '\\' then ['\\', '\\']
    else if c as int == 8 then ['\\', 'b']
    else if c as int == 9 then ['\\', 't']
    else if c as int == 10 then ['\\', 'n']
    else if c as int == 12 then ['\\', 'f']
    else if c as int == 13 then ['\\', 'r']
    else if c as int < 32 then ['\\', 'u', '0', '0', HexDigit(c as int / 16), HexDigit(c as int % 16)]
    else [c]
  }

  function Escape(s: string): string
  {
    if s == [] then [] else EscapeChar(s[0]) + Escape(s[1..])
  }

  /** A JSON string literal. */
  function Quote(s: string): string
  {
    ['"'] + Escape(s) + ['"']
  }

  function Member(f: (string, string)): string
  {
    Quote(f.0) + [':'] + Quote(f.1)
  }

  function Members(fs: seq<(string, string)>): string
  {
    if |fs| == 0 then []
    else if |fs| == 1 then Member(fs[0])
    else Member(fs[0]) + [','] + Members(fs[1..])
  }

  /** `JSON.stringify` of an object literal whose members, in order, are `fs`. */
  function Stringify(fs: seq<(string, string)>): string
  {
    ['{'] + Members(fs) + ['}']
  }

  /** The object `JSON.parse` builds from the members `fs` read in order
      into `acc`: a later duplicate key overwrites an earlier one. */
  function Assign(acc: map<string, string>, fs: seq<(string, string)>): map<string, string>
    decreases |fs|
  {
    if |fs| == 0 then acc else Assign(acc[fs[0].0 := fs[0].1], fs[1..])
  }

  /** The escape sequence after a backslash: the character it denotes and
      the text after it. A `\u` escape naming a surrogate is refused. */
  function ParseEscape(s: string): (r: Option<(char, string)>)
    ensures r.Some? ==> |r.value.1| < |s|
  {
    if s == [] then None
    else if s[0] == '"' || s[0] == '\\' || s[0] == '/' then Some((s[0], s[1..]))
    else if s[0] == 'b' then Some((8 as char, s[1..]))
    else if s[0] == 't' then Some((9 as char, s[1..]))
    else if s[0] == 'n' then Some((10 as char, s[1..]))
    else if s[0] == 'f' then Some((12 as char, s[1..]))
    else if s[0] == 'r' then Some((13 as char, s[1..]))
    else if s[0] == 'u' && |s| >= 5 then
      match (HexValue(s[1]), HexValue(s[2]), HexValue(s[3]), HexValue(s[4]))
      case (Some(a), Some(b), Some(c), Some(d)) =>
        var v := a * 4096 + b * 256 + c * 16 + d;
        if 0xD800 <= v < 0xE000 then None else Some((v as char, s[5..]))
      case _ => None
    else None
  }

  /** The body of a string literal (the text after its opening quote):
      the decoded string and the text after the closing quote. */
  function ParseString(s: string): (r: Option<(string, string)>)
    ensures r.Some? ==> |r.value.1| < |s|
  {
    if s == [] then None
    else if s[0] == '"' then Some(([], s[1..]))
    else if s[0] == '\\' then
      match ParseEscape(s[1..])
      case None => None
      case Some((c, rest)) =>
        match ParseString(rest)
        case None => None
        case Some((t, rest')) => Some(([c] + t, rest'))
    else if (s[0] as int) < 32 then None
    else
      match ParseString(s[1..])
      case None => None
      case Some((t, rest')) => Some(([s[0]] + t, rest'))
  }

  /** One member `"key" : "value"` starting at the key's opening quote:
      the key, the value and the text after the value, whitespace skipped. */
  function ParseMember(s: string): (r: Option<(string, string, string)>)
    ensures r.Some? ==> |r.value.2| < |s|
  {
    if s == [] || s[0] != '"' then None
    else
      match ParseString(s[1..])
      case None => None
      case Some((k, r1)) =>
        var r2 := SkipWs(r1);
        if r2 == [] || r2[0] != ':' then None
        else
          var r3 := SkipWs(r2[1..]);
          if r3 == [] || r3[0] != '"' then None
          else
            match ParseString(r3[1..])
            case None => None
            case Some((v, r4)) => Some((k, v, SkipWs(r4)))
  }

  /** The members of an object, starting at a key's opening quote and ending
      after the closing brace; the members read are assigned into `acc`. */
  function ParseMembers(s: string, acc: map<string, string>): Option<(map<string, string>, string)>
    decreases |s|
  {
    match ParseMember(s)
    case None => None
    case Some((k, v, r)) =>
      if r == [] then None
      else if r[0] == '}' then Some((acc[k := v], r[1..]))
      else if r[0] == ',' then ParseMembers(SkipWs(r[1..]), acc[k := v])
      else None
  }

  /** `JSON.parse`, restricted to objects of string members. */
  function Parse(text: string): Option<map<string, string>>
  {
    var s := SkipWs(text);
    if s == [] || s[0] != '{' then None
    else
      var s1 := SkipWs(s[1..]);
      if s1 != [] && s1[0] == '}' then
        if SkipWs(s1[1..]) == [] then Some(map[]) else None
      else
        match ParseMembers(s1, map[])
        case None => None
        case Some((m, rest)) => if SkipWs(rest) == [] then Some(m) else None
  }

  /** Text whose first significant character does not open an object is
      refused. */
  lemma NotAnObject(text: string)
    requires text != [] && !IsJsonWs(text[0]) && text[0] != '{'
    ensures Parse(text) == None
  {
  }

  lemma HexDigitValue(n: nat)
    requires n < 16
    ensures HexValue(HexDigit(n)) == Some(n)
  {
  }

  /** Reading back one escaped character. */
  lemma EscapeCharParses(c: char, rest: string)
    ensures |EscapeChar(c)| >= 1
    ensures EscapeChar(c)[0] == '\\' ==> ParseEscape(EscapeChar(c)[1..] + rest) == Some((c, rest))
    ensures EscapeChar(c)[0] != '\\' ==> EscapeChar(c) == [c] && c != '"' && c as int >= 32
  {
    var e := EscapeChar(c);
    if c != '"' && c != '\\' && c as int !in {8, 9, 10, 12, 13} && c as int < 32 {
      var hi, lo := c as int / 16, c as int % 16;
      HexDigitValue(hi);
      HexDigitValue(lo);
      var s := e[1..] + rest;
      assert s[0] == 'u' && s[1] == '0' && s[2] == '0' && s[3] == HexDigit(hi) && s[4] == HexDigit(lo);
      assert s[5..] == rest;
      assert 0 * 4096 + 0 * 256 + hi * 16 + lo == c as int;
    } else if c == '"' || c == '\\' || c as int in {8, 9, 10, 12, 13} {
      assert (e[1..] + rest)[1..] == rest;
    }
  }

  /** One decoded character followed by the rest of the literal. */
  lemma ParseStringCons(s: string, c: char, t: string, y: string, rest: string)
    requires s != [] && ParseString(t) == Some((y, rest))
    requires (s[0] == '\\' && ParseEscape(s[1..]) == Some((c, t)))
          || (s[0] == c && s[1..] == t && c != '"' && c != '\\' && c as int >= 32)
    ensures ParseString(s) == Some(([c] + y, rest))
  {
  }

  /** One escaped character, then a literal body that parses. */
  lemma ParseCharThen(c: char, t: string, y: string, rest: string)
    requires ParseString(t) == Some((y, rest))
    ensures ParseString(EscapeChar(c) + t) == Some(([c] + y, rest))
  {
    var e := EscapeChar(c);
    var s := e + t;
    EscapeCharParses(c, t);
    if e[0] == '\\' {
      assert s[0] == '\\' && s[1..] == e[1..] + t;
    } else {
      assert s[0] == c && s[1..] == t;
    }
    ParseStringCons(s, c, t, y, rest);
  }

  lemma {:induction false} EscapeCons(x: string, rest: string)
    requires x != []
    ensures Escape(x) + ['"'] + rest == EscapeChar(x[0]) + (Escape(x[1..]) + ['"'] + rest)
  {
    var e, r := EscapeChar(x[0]), Escape(x[1..]);
    assert Escape(x) == e + r;
    Assoc(e + r, ['"'], rest);
    Assoc(e, r, ['"'] + rest);
    Assoc(r, ['"'], rest);
  }

  /** String round trip: the body of `Quote(x)` parses back to `x`, leaving
      whatever followed the literal. */
  lemma {:induction false} ParseEscaped(x: string, rest: string)
    ensures ParseString(Escape(x) + ['"'] + rest) == Some((x, rest))
  {
    if x == [] {
      assert Escape(x) + ['"'] + rest == ['"'] + rest;
    } else {
      EscapeCons(x, rest);
      ParseEscaped(x[1..], rest);
      ParseCharThen(x[0], Escape(x[1..]) + ['"'] + rest, x[1..], rest);
      assert [x[0]] + x[1..] == x;
    }
  }

  lemma {:induction false} SkipWsNoop(s: string)
    requires s == [] || !IsJsonWs(s[0])
    ensures SkipWs(s) == s
  {
  }

  lemma {:induction false} MembersStart(fs: seq<(string, string)>)
    requires |fs| >= 1
    ensures |Members(fs)| >= 1 && Members(fs)[0] == '"'
  {
    assert Member(fs[0])[0] == '"';
  }

  /** The text after the first member of `Members(fs) + "}" + rest`. */
  function AfterFirst(fs: seq<(string, string)>, rest: string): string
    requires |fs| >= 1
  {
    if |fs| == 1 then ['}'] + rest else [','] + Members(fs[1..]) + ['}'] + rest
  }

  lemma {:induction false} Assoc(a: string, b: string, c: string)
    ensures a + b + c == a + (b + c)
  {
  }

  lemma {:induction false} MembersFirst(fs: seq<(string, string)>, rest: string)
    requires |fs| >= 1
    ensures Members(fs) + ['}'] + rest == Member(fs[0]) + AfterFirst(fs, rest)
  {
    var m := Member(fs[0]);
    if |fs| == 1 {
      assert Members(fs) == m;
      assert AfterFirst(fs, rest) == ['}'] + rest;
      Assoc(m, ['}'], rest);
    } else {
      var tail := Members(fs[1..]);
      assert Members(fs) == m + [','] + tail;
      assert AfterFirst(fs, rest) == [','] + tail + ['}'] + rest;
      calc {
        m + [','] + tail + ['}'] + rest;
        { Assoc(m + [','] + tail, ['}'], rest); }
        m + [','] + tail + (['}'] + rest);
        { Assoc(m + [','], tail, ['}'] + rest); }
        m + [','] + (tail + (['}'] + rest));
        { Assoc(m, [','], tail + (['}'] + rest)); }
        m + ([','] + (tail + (['}'] + rest)));
        { Assoc([','], tail, ['}'] + rest); Assoc([','] + tail, ['}'], rest); }
        m + ([','] + tail + ['}'] + rest);
      }
    }
  }

  lemma {:induction false} MemberShape(f: (string, string), a: string)
    ensures Member(f) + a == ['"'] + (Escape(f.0) + ['"'] + ([':'] + Quote(f.1) + a))
  {
    var q, e, c, v := ['"'], Escape(f.0), [':'], Quote(f.1);
    var x, w := q + e + q, c + v + a;
    calc {
      Member(f) + a;
      x + c + v + a;
      { Assoc(x + c, v, a); }
      x + c + (v + a);
      { Assoc(x, c, v + a); }
      x + (c + (v + a));
      { Assoc(c, v, a); }
      x + w;
      { Assoc(q + e, q, w); }
      q + e + (q + w);
      { Assoc(q, e, q + w); }
      q + (e + (q + w));
      { Assoc(e, q, w); }
      q + (e + q + w);
    }
  }

  lemma {:induction false} MembersShape(fs: seq<(string, string)>, rest: string)
    requires |fs| >= 1
    ensures Members(fs) + ['}'] + rest
         == ['"'] + (Escape(fs[0].0) + ['"'] + ([':'] + Quote(fs[0].1) + AfterFirst(fs, rest)))
  {
    MembersFirst(fs, rest);
    MemberShape(fs[0], AfterFirst(fs, rest));
  }

  /** The shape `ParseMember` accepts, stated step by step. */
  lemma ParseMemberOf(s: string, k: string, r1: string, v: string, r4: string)
    requires s != [] && s[0] == '"' && ParseString(s[1..]) == Some((k, r1))
    requires |r1| >= 2 && r1[0] == ':' && r1[1] == '"'
    requires ParseString(r1[2..]) == Some((v, r4))
    ensures ParseMember(s) == Some((k, v, SkipWs(r4)))
  {
    assert SkipWs(r1) == r1;
    assert SkipWs(r1[1..]) == r1[1..];
    assert r1[1..][1..] == r1[2..];
  }

  /** Reading back one member, when what follows it does not start with
      whitespace. */
  lemma {:induction false} MemberParses(f: (string, string), t: string)
    requires t == [] || !IsJsonWs(t[0])
    ensures ParseMember(Member(f) + t) == Some((f.0, f.1, t))
  {
    var s := Member(f) + t;
    var valueText := Escape(f.1) + ['"'] + t;
    var afterKey := [':'] + Quote(f.1) + t;
    MemberSplit(f, t);
    assert ParseString(s[1..]) == Some((f.0, afterKey)) by {
      ParseEscaped(f.0, afterKey);
    }
    ParseEscaped(f.1, t);
    ParseMemberOf(s, f.0, afterKey, f.1, t);
    SkipWsNoop(t);
  }

  /** Where a member's key and value text start. */
  lemma {:induction false} MemberSplit(f: (string, string), t: string)
    ensures var s := Member(f) + t; var afterKey := [':'] + Quote(f.1) + t;
      s != [] && s[0] == '"' && s[1..] == Escape(f.0) + ['"'] + afterKey
      && |afterKey| >= 2 && afterKey[0] == ':' && afterKey[1] == '"' && afterKey[2..] == Escape(f.1) + ['"'] + t
  {
    var afterKey := [':'] + Quote(f.1) + t;
    var x := Escape(f.0) + ['"'] + afterKey;
    MemberShape(f, t);
    DropFirst('"', x);
    var y := Escape(f.1) + ['"'] + t;
    assert afterKey == [':', '"'] + y by {
      Assoc(['"'] + Escape(f.1), ['"'], t);
      Assoc(['"'], Escape(f.1), ['"'] + t);
      Assoc(Escape(f.1), ['"'], t);
      Assoc([':'], ['"'] + Escape(f.1) + ['"'], t);
    }
  }

  lemma DropFirst(c: char, x: string)
    ensures ([c] + x)[0] == c && ([c] + x)[1..] == x
  {
  }

  lemma {:induction false} ParseMembersStep(s: string, acc: map<string, string>, k: string, v: string, t: string)
    requires ParseMember(s) == Some((k, v, t)) && t != []
    ensures t[0] == '}' ==> ParseMembers(s, acc) == Some((acc[k := v], t[1..]))
    ensures t[0] == ',' ==> ParseMembers(s, acc) == ParseMembers(SkipWs(t[1..]), acc[k := v])
  {
  }

  /** The first member of `Members(fs) + "}" + rest` is read back, leaving
      the text after it. */
  lemma {:induction false} FirstMemberParses(fs: seq<(string, string)>, rest: string)
    requires |fs| >= 1
    ensures ParseMember(Members(fs) + ['}'] + rest) == Some((fs[0].0, fs[0].1, AfterFirst(fs, rest)))
  {
    var tail := AfterFirst(fs, rest);
    assert tail != [] && (tail[0] == '}' || tail[0] == ',');
    MembersFirst(fs, rest);
    MemberParses(fs[0], tail);
  }

  /** After a member that is not the last comes a comma and the remaining members. */
  lemma {:induction false} AfterFirstMore(fs: seq<(string, string)>, rest: string)
    requires |fs| >= 2
    ensures AfterFirst(fs, rest) == [','] + (Members(fs[1..]) + ['}'] + rest)
  {
    var m := Members(fs[1..]);
    Assoc([','] + m, ['}'], rest);
    Assoc([','], m, ['}'] + rest);
    Assoc(m, ['}'], rest);
  }

  /** Object-members round trip. */
  lemma {:induction false} ParseMembersOf(fs: seq<(string, string)>, acc: map<string, string>, rest: string)
    requires |fs| >= 1
    ensures ParseMembers(Members(fs) + ['}'] + rest, acc) == Some((Assign(acc, fs), rest))
    decreases |fs|
  {
    var s := Members(fs) + ['}'] + rest;
    var tail := AfterFirst(fs, rest);
    var acc' := acc[fs[0].0 := fs[0].1];
    FirstMemberParses(fs, rest);
    assert Assign(acc, fs) == Assign(acc', fs[1..]);
    if |fs| == 1 {
      assert tail == ['}'] + rest;
      ParseMembersStep(s, acc, fs[0].0, fs[0].1, tail);
      assert tail[1..] == rest;
    } else {
      var next := Members(fs[1..]) + ['}'] + rest;
      AfterFirstMore(fs, rest);
      assert tail[0] == ',' && tail[1..] == next;
      ParseMembersStep(s, acc, fs[0].0, fs[0].1, tail);
      assert SkipWs(next) == next by {
        MembersStart(fs[1..]);
        SkipWsNoop(next);
      }
      ParseMembersOf(fs[1..], acc', rest);
    }
  }

  /** JSON round trip: parsing what `Stringify` wrote gives back the object
      with those members. */
  lemma {:induction false} ParseStringify(fs: seq<(string, string)>)
    ensures Parse(Stringify(fs)) == Some(Assign(map[], fs))
  {
    var text := Stringify(fs);
    SkipWsNoop(text);
    if |fs| == 0 {
      assert text == ['{', '}'];
      assert text[1..][1..] == [];
    } else {
      var body := Members(fs) + ['}'] + [];
      assert text == ['{'] + body by {
        Assoc(['{'], Members(fs), ['}']);
      }
      MembersStart(fs);
      ParseMembersOf(fs, map[], []);
      ParseObjectOf(text, body, Assign(map[], fs));
    }
  }

  /** An object whose members are read to the end of the text. */
  lemma ParseObjectOf(text: string, body: string, m: map<string, string>)
    requires text == ['{'] + body && body != [] && body[0] == '"'
    requires ParseMembers(body, map[]) == Some((m, []))
    ensures Parse(text) == Some(m)
  {
    SkipWsNoop(text);
    assert text[1..] == body;
    SkipWsNoop(body);
  }
}
