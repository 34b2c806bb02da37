/** A reader of JSON texts by RFC 8259, independent of any writer: what a canonical text has to mean. */
module JsonReader {
  import opened Wrappers
  import opened Numerals

  /** Numbers written with a fraction or an exponent are given by that numeral, the others by their integer. */
  datatype Value =
    | Null
    | Bool(value: bool)
    | Str(text: string)
    | Int(number: int)
    | Fraction(numeral: FractionNumeral)
    | Arr(items: seq<Value>)
    | Obj(members: map<string, Value>)

  // ---------------------------------------------------------------------------------------------
  // Numbers, section 6

  function AfterDigits(s: string): (rest: string)
    ensures |rest| <= |s|
  {
    if s != [] && IsDigit(s[0]) then AfterDigits(s[1..]) else s
  }

  /** One or more digits and nothing else. */
  predicate IsDigits(s: string) {
    s != [] && forall i | 0 <= i < |s| :: IsDigit(s[i])
  }

  predicate IsExponent(s: string) {
    s == [] ||
    ((s[0] == 'e' || s[0] == 'E') && IsDigits(if |s| > 1 && (s[1] == '+' || s[1] == '-') then s[2..] else s[1..]))
  }

  predicate IsFraction(s: string) {
    if s != [] && s[0] == '.' then |s| > 1 && IsDigit(s[1]) && IsExponent(AfterDigits(s[1..])) else IsExponent(s)
  }

  /** An integer part without leading zeros, then a fraction and an exponent, each optional. */
  predicate IsNumber(s: string) {
    var t := if s != [] && s[0] == '-' then s[1..] else s;
    t != [] && IsDigit(t[0]) && IsFraction(if t[0] == '0' then t[1..] else AfterDigits(t))
  }

  predicate NumberChar(c: char) {
    IsDigit(c) || c == '-' || c == '+' || c == '.' || c == 'e' || c == 'E'
  }

  predicate HasPoint(s: string) {
    '.' in s || 'e' in s || 'E' in s
  }

  type FractionNumeral = s: string | IsNumber(s) && HasPoint(s) && forall i | 0 <= i < |s| :: NumberChar(s[i])
    witness (assert "0.5"[0] == '0' && "0.5"[1] == '.' && "0.5"[2] == '5'; assert "0.5"[1..] == ".5"; "0.5")

  function NumberRun(s: string): (n: nat)
    ensures n <= |s| && forall i | 0 <= i < n :: NumberChar(s[i])
    ensures n < |s| ==> !NumberChar(s[n])
  {
    if s == [] || !NumberChar(s[0]) then 0 else 1 + NumberRun(s[1..])
  }

  function IntegerOf(s: string): int {
    var t := if s != [] && s[0] == '-' then s[1..] else s;
    if !IsDigits(t) then 0 else if s[0] == '-' then 0 - Value10(t) else Value10(t)
  }

  function Value10(s: string): nat
    requires IsDigits(s)
  {
    Numerals.Value(s)
  }

  function ReadNumber(s: string): (r: Option<(Value, string)>)
    ensures r.Some? ==> |r.value.1| < |s|
  {
    var n := NumberRun(s);
    var token := s[..n];
    if !IsNumber(token) then None
    else if HasPoint(token) then Some((Fraction(token), s[n..]))
    else Some((Int(IntegerOf(token)), s[n..]))
  }

  // ---------------------------------------------------------------------------------------------
  // Strings, section 7

  function HexDigit(c: char): Option<nat> {
    if '0' <= c <= '9' then Some(c as int - '0' as int)
    else if 'a' <= c <= 'f' then Some(c as int - 'a' as int + 10)
    else if 'A' <= c <= 'F' then Some(c as int - 'A' as int + 10)
    else None
  }

  /** Four hexadecimal digits. */
  function Hex4(s: string): (r: Option<nat>)
    ensures r.Some? ==> |s| >= 4 && r.value < 0x10000
  {
    if |s| < 4 || HexDigit(s[0]).None? || HexDigit(s[1]).None? || HexDigit(s[2]).None? || HexDigit(s[3]).None? then None
    else
      Some(0x1000 * HexDigit(s[0]).value + 0x100 * HexDigit(s[1]).value
           + 0x10 * HexDigit(s[2]).value + HexDigit(s[3]).value)
  }

  /** After a backslash and a `u`: a scalar value, or a pair of surrogates for one beyond 16 bits. */
  function ReadUnicode(s: string): (r: Option<(char, string)>)
    ensures r.Some? ==> |r.value.1| <= |s| - 4
  {
    match Hex4(s)
    case None => None
    case Some(high) =>
      if high < 0xD800 || high >= 0xE000 then Some((high as char, s[4..]))
      else if high < 0xDC00 && |s| >= 6 && s[4] == '\\' && s[5] == 'u' then
        match Hex4(s[6..])
        case None => None
        case Some(low) =>
          if 0xDC00 <= low < 0xE000
          then Some(((0x10000 + 0x400 * (high - 0xD800) + (low - 0xDC00)) as char, s[10..]))
          else None
      else None
  }

  /** One character inside a string: as it is, or escaped. */
  function ReadChar(s: string): (r: Option<(char, string)>)
    ensures r.Some? ==> |r.value.1| < |s|
  {
    if s == [] || s[0] == '\"' || s[0] as int < 0x20 then None
    else if s[0] != '\\' then Some((s[0], s[1..]))
    else if |s| == 1 then None
    else if s[1] == '\"' || s[1] == '\\' || s[1] == '/' then Some((s[1], s[2..]))
    else if s[1] == 'b' then Some((0x8 as char, s[2..]))
    else if s[1] == 'f' then Some((0xC as char, s[2..]))
    else if s[1] == 'n' then Some((0xA as char, s[2..]))
    else if s[1] == 'r' then Some((0xD as char, s[2..]))
    else if s[1] == 't' then Some((0x9 as char, s[2..]))
    else if s[1] == 'u' then ReadUnicode(s[2..])
    else None
  }

  /** A string after its opening quotation mark. */
  function ReadString(s: string): (r: Option<(string, string)>)
    ensures r.Some? ==> |r.value.1| < |s|
    decreases |s|
  {
    if s == [] then None
    else if s[0] == '\"' then Some(("", s[1..]))
    else
      match ReadChar(s)
      case None => None
      case Some((c, rest)) =>
        match ReadString(rest)
        case None => None
        case Some((text, after)) => Some(([c] + text, after))
  }

  // ---------------------------------------------------------------------------------------------
  // Values, sections 2 to 5

  predicate IsSpace(c: char) {
    c == ' ' || c == '\t' || c == '\n' || c == '\r'
  }

  function AfterSpace(s: string): (rest: string)
    ensures |rest| <= |s|
  {
    if s != [] && IsSpace(s[0]) then AfterSpace(s[1..]) else s
  }

  predicate StartsWith(s: string, c: char) {
    s != [] && s[0] == c
  }

  /** A value and what follows it. */
  function ReadValue(s: string): (r: Option<(Value, string)>)
    ensures r.Some? ==> |r.value.1| < |s|
    decreases |s|, 0
  {
    var t := AfterSpace(s);
    if t == [] then None
    else if "null" <= t then Some((Null, t[4..]))
    else if "true" <= t then Some((Bool(true), t[4..]))
    else if "false" <= t then Some((Bool(false), t[5..]))
    else if t[0] == '\"' then
      match ReadString(t[1..])
      case None => None
      case Some((text, rest)) => Some((Str(text), rest))
    else if t[0] == '[' then
      if StartsWith(AfterSpace(t[1..]), ']') then Some((Arr([]), AfterSpace(t[1..])[1..]))
      else
        match ReadItems(t[1..])
        case None => None
        case Some((items, rest)) => Some((Arr(items), rest))
    else if t[0] == '{' then
      if StartsWith(AfterSpace(t[1..]), '}') then Some((Obj(map[]), AfterSpace(t[1..])[1..]))
      else
        match ReadMembers(t[1..])
        case None => None
        case Some((members, rest)) => Some((Obj(members), rest))
    else ReadNumber(t)
  }

  /** One or more items and the closing bracket. */
  function ReadItems(s: string): (r: Option<(seq<Value>, string)>)
    ensures r.Some? ==> |r.value.1| < |s|
    decreases |s|, 1
  {
    match ReadValue(s)
    case None => None
    case Some((item, rest)) =>
      var t := AfterSpace(rest);
      if StartsWith(t, ']') then Some(([item], t[1..]))
      else if StartsWith(t, ',') then
        match ReadItems(t[1..])
        case None => None
        case Some((items, after)) => Some(([item] + items, after))
      else None
  }

  /** A name, a colon and a value. */
  function ReadMember(s: string): (r: Option<(string, Value, string)>)
    ensures r.Some? ==> |r.value.2| < |s|
    decreases |s|, 1
  {
    var t := AfterSpace(s);
    if !StartsWith(t, '\"') then None
    else
      match ReadString(t[1..])
      case None => None
      case Some((name, rest)) =>
        var u := AfterSpace(rest);
        if !StartsWith(u, ':') then None
        else
          match ReadValue(u[1..])
          case None => None
          case Some((value, after)) => Some((name, value, after))
  }

  /** One or more members of different names and the closing brace. */
  function ReadMembers(s: string): (r: Option<(map<string, Value>, string)>)
    ensures r.Some? ==> |r.value.1| < |s|
    decreases |s|, 2
  {
    match ReadMember(s)
    case None => None
    case Some((name, value, rest)) =>
      var t := AfterSpace(rest);
      if StartsWith(t, '}') then Some((map[name := value], t[1..]))
      else if StartsWith(t, ',') then
        match ReadMembers(t[1..])
        case None => None
        case Some((members, after)) => if name in members then None else Some((members[name := value], after))
      else None
  }

  /** A whole text. */
  function Read(s: string): Option<Value> {
    match ReadValue(s)
    case None => None
    case Some((value, rest)) => if AfterSpace(rest) == [] then Some(value) else None
  }
}
