/**
 * The JSON text form (RFC 8259) that JSON.stringify writes and JSON.parse reads, for the JSON
 * values the store keeps. `Encode` writes the form JSON.stringify produces for an object whose
 * property names are not integer-like and whose numbers are below 1e21 in magnitude (no
 * whitespace, members in the order they were added, integers in plain decimal, the string
 * escapes of section 7 of RFC 8259 that JSON.stringify chooses); `Decode` parses a JSON text. The round trip
 * `Decode(Encode(v)) == Some(v)` is proved below.
 */
module JsonCodec {
  import opened Js
  import opened Decimal

  // ---------------------------------------------------------------- strings

  /** Lower-case hexadecimal digit, as JSON.stringify writes in `\u00XX` escapes. */
  function HexDigit(d: nat): (c: char)
    requires d < 16
  {
    if d < 10 then DigitChar(d) else ('a' as int + d - 10) as char
  }

  /** Value of a hexadecimal digit of either case. */
  function HexValue(c: char): (r: Option<nat>)
    ensures r.Some? ==> r.value < 16
  {
    if IsDigit(c) then Some(DigitValue(c))
    else if 'a' <= c <= 'f' then Some(c as int - 'a' as int + 10)
    else if 'A' <= c <= 'F' then Some(c as int - 'A' as int + 10)
    else None
  }

  lemma HexDigitValue(d: nat)
    requires d < 16
    ensures HexValue(HexDigit(d)) == Some(d)
  {
  }

  /**
   * How JSON.stringify writes one character of a string: the quotation mark, the reverse solidus
   * and the control characters are escaped, with the two-character forms where JSON has one.
   */
  function EscapeChar(c: char): string
  {
    if c == '"' then "\\\""
    else if c == '\\' then "\\\\"
    else if c as int == 0x08 then "\\b"
    else if c as int == 0x0C then "\\f"
    else if c == '\n' then "\\n"
    else if c == '\r' then "\\r"
    else if c == '\t' then "\\t"
    else if (c as int) < 0x20 then "\\u00" + [HexDigit(c as int / 16), HexDigit(c as int % 16)]
    else [c]
  }

  /** The characters of a string, escaped, followed by `rest`. */
  function EscapeTo(s: string, rest: string): string
  {
    if s == [] then rest else EscapeChar(s[0]) + EscapeTo(s[1..], rest)
  }

  /** Reads the escape sequence that follows a reverse solidus; returns the character and what follows. */
  function ParseEscape(s: string): (r: Option<(char, string)>)
    ensures r.Some? ==> |r.value.1| < |s|
  {
    if |s| == 0 then None
    else if s[0] == '"' || s[0] == '\\' || s[0] == '/' then Some((s[0], s[1..]))
    else if s[0] == 'b' then Some((0x08 as char, s[1..]))
    else if s[0] == 'f' then Some((0x0C as char, s[1..]))
    else if s[0] == 'n' then Some(('\n', s[1..]))
    else if s[0] == 'r' then Some(('\r', s[1..]))
    else if s[0] == 't' then Some(('\t', s[1..]))
    else if s[0] == 'u' && |s| >= 5 then
      match (HexValue(s[1]), HexValue(s[2]), HexValue(s[3]), HexValue(s[4]))
      case (Some(a), Some(b), Some(c), Some(d)) =>
        var code := ((a * 16 + b) * 16 + c) * 16 + d;
        // a lone surrogate code unit is not a character of its own
        if code < 0xD800 || 0xE000 <= code then Some((code as char, s[5..])) else None
      case _ => None
    else None
  }

  /** Reads the rest of a string literal after its opening quotation mark. */
  function ParseString(s: string): (r: Option<(string, string)>)
    ensures r.Some? ==> |r.value.1| < |s|
  {
    if |s| == 0 then None
    else if s[0] == '"' then Some(("", s[1..]))
    else if s[0] == '\\' then
      match ParseEscape(s[1..])
      case None => None
      case Some((c, t)) =>
        match ParseString(t)
        case None => None
        case Some((str, u)) => Some(([c] + str, u))
    else if (s[0] as int) < 0x20 then None
    else
      match ParseString(s[1..])
      case None => None
      case Some((str, u)) => Some(([s[0]] + str, u))
  }

  /** Each character is written either as itself, or as an escape that reads back as it. */
  lemma EscapeCharRoundTrip(c: char, t: string)
    ensures EscapeChar(c) == [c] ==> c != '"' && c != '\\' && c as int >= 0x20
    ensures EscapeChar(c) != [c] ==>
              |EscapeChar(c)| > 1 && EscapeChar(c)[0] == '\\' &&
              ParseEscape(EscapeChar(c)[1..] + t) == Some((c, t))
  {
    var e := EscapeChar(c);
    if e != [c] {
      var s := e[1..] + t;
      if c as int < 0x20 && c as int !in {0x08, 0x09, 0x0A, 0x0C, 0x0D} {
        var hi, lo := c as int / 16, c as int % 16;
        assert s == ['u', '0', '0', HexDigit(hi), HexDigit(lo)] + t;
        HexDigitValue(0);
        HexDigitValue(hi);
        HexDigitValue(lo);
        assert s[5..] == t;
      } else {
        assert s[1..] == t;
      }
    }
  }

  /** A string literal reads back as the string it was written from. */
  lemma {:induction false} StringRoundTrip(s: string, rest: string)
    ensures ParseString(EscapeTo(s, "\"" + rest)) == Some((s, rest))
  {
    if s != [] {
      var tail := EscapeTo(s[1..], "\"" + rest);
      StringRoundTrip(s[1..], rest);
      CharRoundTrip(s[0], tail, s[1..], rest);
      assert [s[0]] + s[1..] == s;
    }
  }

  /** One written character, followed by the rest of the literal, reads back as that character. */
  lemma CharRoundTrip(c: char, tail: string, str: string, rest: string)
    requires ParseString(tail) == Some((str, rest))
    ensures ParseString(EscapeChar(c) + tail) == Some(([c] + str, rest))
  {
    var e := EscapeChar(c);
    var input := e + tail;
    EscapeCharRoundTrip(c, tail);
    if e == [c] {
      assert input[1..] == tail;
      ParseStringPlain(input, tail, str, rest);
    } else {
      assert input[1..] == e[1..] + tail;
      ParseStringEscaped(input, c, tail, str, rest);
    }
  }

  lemma ParseStringPlain(input: string, tail: string, str: string, rest: string)
    requires |input| > 0 && input[0] != '"' && input[0] != '\\' && input[0] as int >= 0x20
    requires input[1..] == tail && ParseString(tail) == Some((str, rest))
    ensures ParseString(input) == Some(([input[0]] + str, rest))
  {
  }

  lemma ParseStringEscaped(input: string, c: char, tail: string, str: string, rest: string)
    requires |input| > 0 && input[0] == '\\' && ParseEscape(input[1..]) == Some((c, tail))
    requires ParseString(tail) == Some((str, rest))
    ensures ParseString(input) == Some(([c] + str, rest))
  {
  }

  // ---------------------------------------------------------------- values

  /** The characters a JSON text written by `EncodeTo` can begin with. */
  predicate StartsValue(c: char) {
    c == 'n' || c == 't' || c == 'f' || c == '-' || IsDigit(c) || c == '"' || c == '[' || c == '{'
  }

  /**
   * JSON.stringify of a value, followed by `rest`. Writing the encoding in front of whatever
   * follows it keeps every concatenation a single step, which is what the proofs below unfold.
   */
  function EncodeTo(v: Json, rest: string): (r: string)
    ensures |r| > 0 && StartsValue(r[0])
    decreases v, 2
  {
    match v
    case JNull => "null" + rest
    case JBool(b) => (if b then "true" else "false") + rest
    case JNum(n) => IntToString(n) + rest
    case JStr(s) => "\"" + EscapeTo(s, "\"" + rest)
    case JArr(items) => "[" + (if items == [] then "]" + rest else ItemsTo(items, "]" + rest))
    case JObj(members) => "{" + (if members == [] then "}" + rest else MembersTo(members, "}" + rest))
  }

  /** The elements of a non-empty array, separated by commas, followed by `rest`. */
  function ItemsTo(items: seq<Json>, rest: string): string
    requires items != []
    decreases items, 1
  {
    if |items| == 1 then EncodeTo(items[0], rest)
    else EncodeTo(items[0], "," + ItemsTo(items[1..], rest))
  }

  /** The members of a non-empty object, separated by commas, followed by `rest`. */
  function MembersTo(members: seq<(string, Json)>, rest: string): string
    requires members != []
    decreases members, 1
  {
    if |members| == 1 then MemberTo(members[0], rest)
    else MemberTo(members[0], "," + MembersTo(members[1..], rest))
  }

  /** One member of an object, `"name":value`, followed by `rest`. */
  function MemberTo(member: (string, Json), rest: string): string
    decreases member, 0
  {
    "\"" + EscapeTo(member.0, "\"" + (":" + EncodeTo(member.1, rest)))
  }

  /** JSON.stringify of a value. */
  function Encode(v: Json): string
  {
    EncodeTo(v, "")
  }

  /** Reads a literal name (`null`, `true`, `false`). */
  function ParseLiteral(s: string, name: string, v: Json): (r: Option<(Json, string)>)
    requires |name| > 0
    ensures r.Some? ==> |r.value.1| < |s|
  {
    if |name| <= |s| && s[..|name|] == name then Some((v, s[|name|..])) else None
  }

  /**
   * Reads an integer: an optional minus sign and a run of digits without a leading zero.
   * Fractions and exponents are not part of the integer numbers modelled here.
   */
  function ParseNumber(s: string): (r: Option<(Json, string)>)
    ensures r.Some? ==> |r.value.1| < |s|
  {
    var neg := |s| > 0 && s[0] == '-';
    var t := if neg then s[1..] else s;
    var k := DigitRun(t);
    if k == 0 || (k > 1 && t[0] == '0') then None
    else
      var n: int := DigitsValue(t[..k]);
      Some((JNum(if neg then -n else n), t[k..]))
  }

  /** Reads one JSON value at the start of `s`; returns it with what follows it. */
  function ParseValue(s: string): (r: Option<(Json, string)>)
    ensures r.Some? ==> |r.value.1| < |s|
    decreases |s|, 0
  {
    if |s| == 0 then None
    else if s[0] == 'n' then ParseLiteral(s, "null", JNull)
    else if s[0] == 't' then ParseLiteral(s, "true", JBool(true))
    else if s[0] == 'f' then ParseLiteral(s, "false", JBool(false))
    else if s[0] == '"' then ParseStringValue(s[1..])
    else if s[0] == '[' then ParseArray(s[1..])
    else if s[0] == '{' then ParseObject(s[1..])
    else ParseNumber(s)
  }

  /** Reads a string value after its opening quotation mark. */
  function ParseStringValue(s: string): (r: Option<(Json, string)>)
    ensures r.Some? ==> |r.value.1| < |s|
  {
    match ParseString(s)
    case None => None
    case Some((str, rest)) => Some((JStr(str), rest))
  }

  /** Reads an array after its opening bracket. */
  function ParseArray(s: string): (r: Option<(Json, string)>)
    ensures r.Some? ==> |r.value.1| < |s|
    decreases |s|, 2
  {
    if |s| > 0 && s[0] == ']' then Some((JArr([]), s[1..]))
    else
      match ParseItems(s)
      case None => None
      case Some((items, rest)) => Some((JArr(items), rest))
  }

  /** Reads an object after its opening brace. */
  function ParseObject(s: string): (r: Option<(Json, string)>)
    ensures r.Some? ==> |r.value.1| < |s|
    decreases |s|, 2
  {
    if |s| > 0 && s[0] == '}' then Some((JObj([]), s[1..]))
    else
      match ParseMembers(s)
      case None => None
      case Some((members, rest)) => Some((JObj(members), rest))
  }

  /** Reads the elements of a non-empty array and its closing bracket. */
  function ParseItems(s: string): (r: Option<(seq<Json>, string)>)
    ensures r.Some? ==> |r.value.1| < |s|
    decreases |s|, 1
  {
    match ParseValue(s)
    case None => None
    case Some((v, t)) =>
      if |t| > 0 && t[0] == ',' then
        match ParseItems(t[1..])
        case None => None
        case Some((vs, u)) => Some(([v] + vs, u))
      else if |t| > 0 && t[0] == ']' then Some(([v], t[1..]))
      else None
  }

  /** Reads the members of a non-empty object and its closing brace. */
  function ParseMembers(s: string): (r: Option<(seq<(string, Json)>, string)>)
    ensures r.Some? ==> |r.value.1| < |s|
    decreases |s|, 1
  {
    if |s| == 0 || s[0] != '"' then None
    else
      match ParseString(s[1..])
      case None => None
      case Some((name, t)) =>
        if |t| == 0 || t[0] != ':' then None
        else
          match ParseValue(t[1..])
          case None => None
          case Some((v, u)) =>
            if |u| > 0 && u[0] == ',' then
              match ParseMembers(u[1..])
              case None => None
              case Some((ms, w)) => Some(([(name, v)] + ms, w))
            else if |u| > 0 && u[0] == '}' then Some(([(name, v)], u[1..]))
            else None
  }

  /** JSON.parse: a JSON text is exactly one value. */
  function Decode(s: string): (r: Option<Json>)
    ensures r.Some? ==> ParseValue(s) == Some((r.value, ""))
  {
    match ParseValue(s)
    case None => None
    case Some((v, rest)) => if rest == [] then Some(v) else None
  }

  // ---------------------------------------------------------------- round trip

  /** What may follow a value without being read as part of it: anything but a digit. */
  predicate NoDigitAhead(rest: string) {
    rest == [] || !IsDigit(rest[0])
  }

  lemma NumberRoundTrip(n: int, rest: string)
    requires NoDigitAhead(rest)
    ensures ParseNumber(IntToString(n) + rest) == Some((JNum(n), rest))
  {
    var m: nat := if n < 0 then -n else n;
    var d := NatToString(m);
    var t := d + rest;
    assert DigitRun(t) == |d| && t[..|d|] == d && t[|d|..] == rest && DigitsValue(d) == m by {
      DigitRunOfDigits(d, rest);
      NatToStringRoundTrip(m);
    }
    var s := IntToString(n) + rest;
    if n < 0 {
      assert s[0] == '-' && s[1..] == t;
    } else {
      assert s == t && s[0] != '-';
    }
  }

  /** Every value reads back from its encoding, whatever follows it (unless a digit follows). */
  lemma {:induction false} RoundTrip(v: Json, rest: string)
    requires NoDigitAhead(rest)
    ensures ParseValue(EncodeTo(v, rest)) == Some((v, rest))
    decreases v, 2
  {
    match v
    case JNull => LiteralRoundTrip("null", v, rest);
    case JBool(b) => LiteralRoundTrip(if b then "true" else "false", v, rest);
    case JNum(n) => NumberValueRoundTrip(n, rest);
    case JStr(str) => StringValueRoundTrip(str, rest);
    case JArr(items) =>
      if items != [] {
        ItemsRoundTrip(items, rest);
      }
      ArrayRoundTrip(items, rest);
    case JObj(members) =>
      if members != [] {
        MembersRoundTrip(members, rest);
      }
      ObjectRoundTrip(members, rest);
  }

  lemma LiteralRoundTrip(name: string, v: Json, rest: string)
    requires (name == "null" && v == JNull) || (name == "true" && v == JBool(true))
          || (name == "false" && v == JBool(false))
    ensures EncodeTo(v, rest) == name + rest
    ensures ParseValue(name + rest) == Some((v, rest))
  {
    var s := name + rest;
    assert s[..|name|] == name && s[|name|..] == rest;
  }

  lemma NumberValueRoundTrip(n: int, rest: string)
    requires NoDigitAhead(rest)
    ensures ParseValue(EncodeTo(JNum(n), rest)) == Some((JNum(n), rest))
  {
    NumberRoundTrip(n, rest);
    var s := IntToString(n) + rest;
    assert s[0] == IntToString(n)[0];
  }

  lemma StringValueRoundTrip(str: string, rest: string)
    ensures ParseValue(EncodeTo(JStr(str), rest)) == Some((JStr(str), rest))
  {
    StringRoundTrip(str, rest);
    var s := EncodeTo(JStr(str), rest);
    assert s[1..] == EscapeTo(str, "\"" + rest);
  }

  lemma ArrayRoundTrip(items: seq<Json>, rest: string)
    requires items != [] ==> ParseItems(ItemsTo(items, "]" + rest)) == Some((items, rest))
    ensures ParseValue(EncodeTo(JArr(items), rest)) == Some((JArr(items), rest))
  {
    var s := EncodeTo(JArr(items), rest);
    var t := if items == [] then "]" + rest else ItemsTo(items, "]" + rest);
    assert s[1..] == t;
    if items == [] {
      assert t[1..] == rest;
    } else {
      assert t[0] != ']';
    }
  }

  lemma ObjectRoundTrip(members: seq<(string, Json)>, rest: string)
    requires members != [] ==> ParseMembers(MembersTo(members, "}" + rest)) == Some((members, rest))
    ensures ParseValue(EncodeTo(JObj(members), rest)) == Some((JObj(members), rest))
  {
    var s := EncodeTo(JObj(members), rest);
    var t := if members == [] then "}" + rest else MembersTo(members, "}" + rest);
    assert s[1..] == t;
    if members == [] {
      assert t[1..] == rest;
    } else {
      assert t[0] == '"';
    }
  }

  lemma {:induction false} ItemsRoundTrip(items: seq<Json>, rest: string)
    requires items != []
    ensures ParseItems(ItemsTo(items, "]" + rest)) == Some((items, rest))
    decreases items, 1
  {
    var s := ItemsTo(items, "]" + rest);
    if |items| == 1 {
      var t := "]" + rest;
      RoundTrip(items[0], t);
      assert t[1..] == rest;
      ItemsLast(s, items[0], t);
      assert [items[0]] == items;
    } else {
      var t := "," + ItemsTo(items[1..], "]" + rest);
      RoundTrip(items[0], t);
      ItemsRoundTrip(items[1..], rest);
      assert t[1..] == ItemsTo(items[1..], "]" + rest);
      ItemsMore(s, items[0], t, items[1..], rest);
      assert [items[0]] + items[1..] == items;
    }
  }

  lemma ItemsLast(s: string, v: Json, t: string)
    requires ParseValue(s) == Some((v, t)) && |t| > 0 && t[0] == ']'
    ensures ParseItems(s) == Some(([v], t[1..]))
  {
  }

  lemma ItemsMore(s: string, v: Json, t: string, vs: seq<Json>, u: string)
    requires ParseValue(s) == Some((v, t)) && |t| > 0 && t[0] == ','
    requires ParseItems(t[1..]) == Some((vs, u))
    ensures ParseItems(s) == Some(([v] + vs, u))
  {
  }

  lemma {:induction false} MembersRoundTrip(members: seq<(string, Json)>, rest: string)
    requires members != []
    ensures ParseMembers(MembersTo(members, "}" + rest)) == Some((members, rest))
    decreases members, 1
  {
    var s := MembersTo(members, "}" + rest);
    var m := members[0];
    if |members| == 1 {
      var u := "}" + rest;
      MemberRoundTrip(m, u);
      assert u[1..] == rest;
      MembersLast(s, m.0, ":" + EncodeTo(m.1, u), m.1, u);
      assert [m] == members;
    } else {
      var u := "," + MembersTo(members[1..], "}" + rest);
      MemberRoundTrip(m, u);
      MembersRoundTrip(members[1..], rest);
      assert u[1..] == MembersTo(members[1..], "}" + rest);
      MembersMore(s, m.0, ":" + EncodeTo(m.1, u), m.1, u, members[1..], rest);
      assert [m] + members[1..] == members;
    }
  }

  /** The name of a member reads back, then a colon, then its value. */
  lemma {:induction false} MemberRoundTrip(member: (string, Json), after: string)
    requires NoDigitAhead(after)
    ensures |MemberTo(member, after)| > 0 && MemberTo(member, after)[0] == '"'
    ensures ParseString(MemberTo(member, after)[1..]) == Some((member.0, ":" + EncodeTo(member.1, after)))
    ensures ParseValue((":" + EncodeTo(member.1, after))[1..]) == Some((member.1, after))
    decreases member, 0
  {
    var t := ":" + EncodeTo(member.1, after);
    StringRoundTrip(member.0, t);
    RoundTrip(member.1, after);
    assert t[1..] == EncodeTo(member.1, after);
  }

  lemma MembersLast(s: string, name: string, t: string, v: Json, u: string)
    requires |s| > 0 && s[0] == '"' && ParseString(s[1..]) == Some((name, t))
    requires |t| > 0 && t[0] == ':' && ParseValue(t[1..]) == Some((v, u))
    requires |u| > 0 && u[0] == '}'
    ensures ParseMembers(s) == Some(([(name, v)], u[1..]))
  {
  }

  lemma MembersMore(s: string, name: string, t: string, v: Json, u: string,
                    ms: seq<(string, Json)>, w: string)
    requires |s| > 0 && s[0] == '"' && ParseString(s[1..]) == Some((name, t))
    requires |t| > 0 && t[0] == ':' && ParseValue(t[1..]) == Some((v, u))
    requires |u| > 0 && u[0] == ',' && ParseMembers(u[1..]) == Some((ms, w))
    ensures ParseMembers(s) == Some(([(name, v)] + ms, w))
  {
  }

  /** JSON.parse(JSON.stringify(v)) gives back `v`. */
  lemma DecodeEncode(v: Json)
    ensures Decode(Encode(v)) == Some(v)
  {
    RoundTrip(v, "");
  }
}
