/** The canonical JSON encoder of log entries (`log/c2sptlog/json.go`), sections 3.2.2.2 and 3.2.3 of RFC 8785.

    A number that is written with a fraction or an exponent is given by that numeral, one for each float64; every
    other number is an integer. */
module CanonicalJson {
  import opened Wrappers
  import opened Numerals
  import opened Unicode
  import opened Ordering
  import opened JsonReader

  const MAX_INTEGER: int := 9007199254740991

  /** Integers that do not come from the decoder have to be safe. */
  predicate Supported(v: Value) {
    match v
    case Int(n) => -MAX_INTEGER <= n <= MAX_INTEGER
    case Arr(items) => forall i | 0 <= i < |items| :: Supported(items[i])
    case Obj(members) => forall k | k in members :: Supported(members[k])
    case _ => true
  }

  // ---------------------------------------------------------------------------------------------
  // Strings

  const HEX := "0123456789abcdef"

  function Escape(c: char): string {
    if c == '\"' || c == '\\' then ['\\', c]
    else if c == 8 as char then "\\b"
    else if c == '\t' then "\\t"
    else if c == '\n' then "\\n"
    else if c == 12 as char then "\\f"
    else if c == '\r' then "\\r"
    else if c as int < 0x20 then "\\u00" + [HEX[c as int / 16], HEX[c as int % 16]]
    else [c]
  }

  function Quoted(s: string): string {
    "\"" + Encode(Escape, s) + "\""
  }

  // ---------------------------------------------------------------------------------------------
  // Strings read back

  lemma HexDigitsRead(n: nat)
    requires n < 16
    ensures HexDigit(HEX[n]) == Some(n)
  {
  }

  /** What is written for a character reads as the character. */
  lemma EscapeReads(c: char, x: string)
    ensures ReadChar(Escape(c) + x) == Some((c, x))
  {
    var s, n := Escape(c) + x, c as int;
    if |Escape(c)| == 6 {
      HexDigitsRead(0);
      HexDigitsRead(n / 16);
      HexDigitsRead(n % 16);
      var digits := ['0', '0', HEX[n / 16], HEX[n % 16]];
      assert s == "\\u" + (digits + x);
      assert s[2..] == digits + x;
      assert HEX[0] == '0';
      assert (digits + x)[4..] == x;
    } else if |Escape(c)| == 2 {
      assert s[2..] == x;
    } else {
      assert s[1..] == x;
    }
  }

  /** And it is the shortest text that does: nothing is escaped that need not be, and two characters are used where
      they can be. Apart from the case of hexadecimal digits, which is lower, it is the only one. */
  lemma EscapeIsShortest(c: char, s: string, x: string)
    requires ReadChar(s) == Some((c, x))
    ensures |Escape(c)| + |x| <= |s|
    ensures |Escape(c)| + |x| == |s| && (|Escape(c)| == 6 ==> forall i | 2 <= i < 6 :: !('A' <= s[i] <= 'F')) ==>
              s == Escape(c) + x
  {
    if s[0] != '\\' {
      assert s == [s[0]] + s[1..];
    } else if s[1] != 'u' {
      EscapeIsShortPair(c, s, x);
    } else {
      hide Escape;
      EscapeIsShortHex(c, s, x);
      EscapeLength(c);
    }
  }

  lemma EscapeLength(c: char)
    ensures |Escape(c)| <= 6
  {
  }

  lemma EscapeIsShortPair(c: char, s: string, x: string)
    requires ReadChar(s) == Some((c, x)) && s[0] == '\\' && s[1] != 'u'
    ensures |Escape(c)| <= 2 && |s| == 2 + |x| && (|Escape(c)| == 2 ==> s == Escape(c) + x)
  {
    assert s == [s[0], s[1]] + s[2..];
  }

  lemma EscapeIsShortHex(c: char, s: string, x: string)
    requires |s| >= 2 && s[0] == '\\' && s[1] == 'u' && ReadUnicode(s[2..]) == Some((c, x))
    ensures |s| >= 6 + |x|
    ensures |Escape(c)| == 6 && |s| == 6 + |x| && (forall i | 2 <= i < 6 :: !('A' <= s[i] <= 'F')) ==>
              s == Escape(c) + x
  {
    hide Escape;
    if |Escape(c)| == 6 && |s| == 6 + |x| && (forall i | 2 <= i < 6 :: !('A' <= s[i] <= 'F')) {
      var digits := [s[2], s[3], s[4], s[5]];
      LongEscape(c);
      assert s[2..][4..] == s[6..];
      HexOfControl(s[2..], c);
      HexIsWritten(s[2]);
      HexIsWritten(s[3]);
      HexIsWritten(s[4]);
      HexIsWritten(s[5]);
      assert s == "\\u" + digits + s[6..];
      assert "\\u" + digits == "\\u00" + [HEX[c as int / 16], HEX[c as int % 16]];
    }
  }

  lemma LongEscape(c: char)
    requires |Escape(c)| == 6
    ensures c as int < 0x20 && Escape(c) == "\\u00" + [HEX[c as int / 16], HEX[c as int % 16]]
    ensures HEX[0] == '0'
  {
  }

  /** The four digits of a control character. */
  lemma HexOfControl(s: string, c: char)
    requires |s| >= 4 && ReadUnicode(s) == Some((c, s[4..])) && c as int < 0x20
    ensures HexDigit(s[0]) == Some(0) && HexDigit(s[1]) == Some(0)
    ensures HexDigit(s[2]) == Some(c as nat / 16) && HexDigit(s[3]) == Some(c as nat % 16)
  {
    hide HexDigit;
    HexIsSmall(s[0]);
    HexIsSmall(s[1]);
    HexIsSmall(s[2]);
    HexIsSmall(s[3]);
    assert Hex4(s) == Some(c as nat);
  }

  lemma HexIsSmall(c: char)
    ensures HexDigit(c).Some? ==> HexDigit(c).value < 16
  {
  }

  lemma HexIsWritten(c: char)
    requires HexDigit(c).Some? && !('A' <= c <= 'F')
    ensures HexDigit(c).value < 16 && HEX[HexDigit(c).value] == c
  {
  }

  // ---------------------------------------------------------------------------------------------
  // Values

  lemma Utf16Orders()
    ensures Injective(Utf16)
  {
    UnitsIsPrefixCode();
    forall a, b | Utf16(a) == Utf16(b) ensures a == b {
      EncodeIsInjective(Units, a, b);
    }
  }

  /** Member names in the order of their UTF-16 code units. */
  ghost function Names(members: map<string, Value>): (names: seq<string>)
    ensures Enumerates(Utf16, names, members.Keys)
    ensures forall i | 0 <= i < |names| :: names[i] in members
  {
    Utf16Orders();
    var names := Sorted(Utf16, members.Keys);
    assert forall i | 0 <= i < |names| :: names[i] in names;
    names
  }

  function Numeral(n: int): string {
    if n < 0 then "-" + Decimal(-n) else Decimal(n)
  }

  ghost function Text(v: Value): string
    decreases v, 1, 0
  {
    match v
    case Null => "null"
    case Bool(b) => if b then "true" else "false"
    case Str(s) => Quoted(s)
    case Int(n) => Numeral(n)
    case Fraction(s) => s
    case Arr(_) => "[" + ItemsFrom(v, 0)
    case Obj(_) => "{" + MembersFrom(v, 0)
  }

  function Comma(i: nat): string {
    if i == 0 then "" else ","
  }

  ghost function ItemsFrom(v: Value, i: nat): string
    requires v.Arr? && i <= |v.items|
    decreases v, 0, |v.items| - i
  {
    if i == |v.items| then "]" else Comma(i) + Text(v.items[i]) + ItemsFrom(v, i + 1)
  }

  ghost function MembersFrom(v: Value, i: nat): string
    requires v.Obj? && i <= |Names(v.members)|
    decreases v, 0, |Names(v.members)| - i
  {
    var names := Names(v.members);
    if i == |names| then "}"
    else Comma(i) + Quoted(names[i]) + ":" + Text(v.members[names[i]]) + MembersFrom(v, i + 1)
  }

  // ---------------------------------------------------------------------------------------------
  // Values read back

  /** What can follow a value. */
  predicate Ends(rest: string) {
    rest == [] || rest[0] in {',', ']', '}'}
  }

  lemma {:induction false} StringReads(s: string, x: string)
    ensures ReadString(Encode(Escape, s) + ("\"" + x)) == Some((s, x))
  {
    hide Escape, ReadChar;
    if s == [] {
      assert Encode(Escape, s) + ("\"" + x) == "\"" + x;
      assert ("\"" + x)[1..] == x;
    } else {
      var rest := Encode(Escape, s[1..]) + ("\"" + x);
      assert Encode(Escape, s) + ("\"" + x) == Escape(s[0]) + rest;
      EscapeReads(s[0], rest);
      EscapeStart(s[0]);
      StringReads(s[1..], x);
      assert [s[0]] + s[1..] == s;
    }
  }

  lemma EscapeStart(c: char)
    ensures Escape(c) != [] && Escape(c)[0] != '\"'
  {
  }

  lemma QuotedReads(s: string, x: string)
    ensures StartsWith(Quoted(s) + x, '\"') && ReadString((Quoted(s) + x)[1..]) == Some((s, x))
  {
    hide Encode, ReadString;
    assert (Quoted(s) + x)[1..] == Encode(Escape, s) + ("\"" + x);
    StringReads(s, x);
  }

  lemma {:induction false} AfterAllDigits(s: string)
    requires forall i | 0 <= i < |s| :: IsDigit(s[i])
    ensures AfterDigits(s) == []
  {
    if s != [] {
      AfterAllDigits(s[1..]);
    }
  }

  /** Integers are numbers of RFC 8259, and read as themselves. */
  lemma NumeralIsNumber(n: int)
    ensures IsNumber(Numeral(n)) && !HasPoint(Numeral(n)) && IntegerOf(Numeral(n)) == n
    ensures forall i | 0 <= i < |Numeral(n)| :: NumberChar(Numeral(n)[i])
  {
    hide Decimal;
    var m: nat := if n < 0 then -n else n;
    var s := Decimal(m);
    assert n < 0 ==> Numeral(n)[1..] == s;
    ValueOfDecimal(m);
    NoLeadingZero(m);
    if m == 0 {
      DecimalOfZero();
    }
    AfterAllDigits(s);
    assert forall i | 0 <= i < |Numeral(n)| :: IsDigit(Numeral(n)[i]) || Numeral(n)[i] == '-';
  }

  lemma DecimalOfZero()
    ensures Decimal(0) == "0"
  {
  }

  lemma {:induction false} RunOfNumber(s: string, x: string)
    requires (forall i | 0 <= i < |s| :: NumberChar(s[i])) && Ends(x)
    ensures NumberRun(s + x) == |s|
  {
    if s == [] {
      assert s + x == x;
    } else {
      assert (s + x)[1..] == s[1..] + x;
      RunOfNumber(s[1..], x);
    }
  }

  lemma NumberReads(v: Value, x: string)
    requires (v.Int? || v.Fraction?) && Ends(x)
    ensures ReadNumber(Text(v) + x) == Some((v, x))
    ensures Text(v) != [] && (Text(v)[0] == '-' || IsDigit(Text(v)[0]))
  {
    hide Numeral, HasPoint, IntegerOf;
    var s := Text(v);
    if v.Int? {
      NumeralIsNumber(v.number);
    }
    RunOfNumber(s, x);
    assert (s + x)[..|s|] == s && (s + x)[|s|..] == x;
    FirstOfNumber(s);
  }

  lemma FirstOfNumber(s: string)
    requires IsNumber(s)
    ensures s != [] && (s[0] == '-' || IsDigit(s[0]))
  {
  }

  /** No value starts with a space or with a mark that ends a value. */
  lemma TextStart(v: Value)
    ensures Text(v) != [] && !IsSpace(Text(v)[0]) && Text(v)[0] != ']' && Text(v)[0] != '}'
  {
    hide Encode, Numeral, Names, IsNumber;
    if v.Int? || v.Fraction? {
      NumberReads(v, "");
    }
  }

  /** The rest of an array after some item, and of an object, starts with a mark that ends a value. */
  lemma RestStart(v: Value, i: nat, x: string)
    requires i > 0
    ensures v.Arr? && i <= |v.items| ==>
              Ends(ItemsFrom(v, i) + x) && AfterSpace(ItemsFrom(v, i) + x) == ItemsFrom(v, i) + x
    ensures v.Obj? && i <= |Names(v.members)| ==>
              Ends(MembersFrom(v, i) + x) && AfterSpace(MembersFrom(v, i) + x) == MembersFrom(v, i) + x
  {
    hide Text, Quoted, Names;
  }

  lemma SpaceBefore(s: string, x: string)
    requires s != [] && !IsSpace(s[0])
    ensures AfterSpace(s + x) == s + x
  {
  }

  lemma AfterMark(c: char, x: string)
    ensures ([c] + x)[1..] == x
  {
  }

  lemma ItemsUnfold(v: Value, i: nat, x: string)
    requires v.Arr? && i < |v.items|
    ensures ItemsFrom(v, i) + x == Comma(i) + (Text(v.items[i]) + (ItemsFrom(v, i + 1) + x))
  {
    hide *;
    ItemsFlat(v, i);
    AssociateThree(Comma(i), Text(v.items[i]), ItemsFrom(v, i + 1), x);
  }

  lemma ItemsFlat(v: Value, i: nat)
    requires v.Arr? && i < |v.items|
    ensures ItemsFrom(v, i) == Comma(i) + Text(v.items[i]) + ItemsFrom(v, i + 1)
  {
    hide Text;
  }

  lemma MembersUnfold(v: Value, i: nat, x: string)
    requires v.Obj? && i < |Names(v.members)|
    ensures var k := Names(v.members)[i];
            MembersFrom(v, i) + x ==
            Comma(i) + (Quoted(k) + (":" + (Text(v.members[k]) + (MembersFrom(v, i + 1) + x))))
  {
    hide *;
    var k := Names(v.members)[i];
    var value, rest := Text(v.members[k]), MembersFrom(v, i + 1);
    MembersFlat(v, i);
    Associate(Comma(i), Quoted(k), ":", value, rest, x);
  }

  lemma AssociateThree(a: string, b: string, c: string, x: string)
    ensures (a + b + c) + x == a + (b + (c + x))
  {
  }

  lemma Associate(a: string, b: string, c: string, d: string, e: string, x: string)
    ensures (a + b + c + d + e) + x == a + (b + (c + (d + (e + x))))
  {
  }

  lemma {:induction false} ItemsRead(v: Value, i: nat, x: string)
    requires v.Arr? && i < |v.items|
    ensures ReadItems(Text(v.items[i]) + (ItemsFrom(v, i + 1) + x)) == Some((v.items[i..], x))
    decreases v, 0, |v.items| - i
  {
    hide Text, ReadValue, AfterSpace, ItemsFrom;
    var rest := ItemsFrom(v, i + 1) + x;
    RestStart(v, i + 1, x);
    ValueReads(v.items[i], rest);
    if i + 1 == |v.items| {
      LastBracket(v, x);
      assert v.items[i..] == [v.items[i]];
    } else {
      ItemsUnfold(v, i + 1, x);
      AfterMark(',', Text(v.items[i + 1]) + (ItemsFrom(v, i + 2) + x));
      ItemsRead(v, i + 1, x);
      assert v.items[i..] == [v.items[i]] + v.items[i + 1..];
    }
  }

  lemma LastBracket(v: Value, x: string)
    ensures v.Arr? ==> ItemsFrom(v, |v.items|) + x == "]" + x && ("]" + x)[1..] == x
    ensures v.Obj? ==> MembersFrom(v, |Names(v.members)|) + x == "}" + x && ("}" + x)[1..] == x
  {
  }

  /** The members from a position on. */
  ghost function MembersAfter(v: Value, i: nat): map<string, Value>
    requires v.Obj? && i <= |Names(v.members)|
    decreases |Names(v.members)| - i
  {
    var names := Names(v.members);
    if i == |names| then map[] else MembersAfter(v, i + 1)[names[i] := v.members[names[i]]]
  }

  lemma {:induction false} MembersAfterAt(v: Value, i: nat, k: string)
    requires v.Obj? && i <= |Names(v.members)|
    ensures k in MembersAfter(v, i) <==> k in Names(v.members)[i..]
    ensures k in MembersAfter(v, i) ==> k in v.members && MembersAfter(v, i)[k] == v.members[k]
    decreases |Names(v.members)| - i
  {
    hide Names;
    var names := Names(v.members);
    if i < |names| {
      MembersAfterAt(v, i + 1, k);
      assert names[i..] == [names[i]] + names[i + 1..];
    }
  }

  lemma NamesAreDistinct(v: Value, i: nat)
    requires v.Obj? && i < |Names(v.members)|
    ensures Names(v.members)[i] !in Names(v.members)[i + 1..]
  {
    var names := Names(v.members);
    forall j | i < j < |names| ensures names[i] != names[j] {
      LessIsIrreflexive(Utf16(names[i]));
    }
  }

  lemma AllMembers(v: Value)
    requires v.Obj?
    ensures MembersAfter(v, 0) == v.members
  {
    var names := Names(v.members);
    forall k ensures (k in MembersAfter(v, 0) <==> k in v.members)
                     && (k in v.members ==> MembersAfter(v, 0)[k] == v.members[k]) {
      MembersAfterAt(v, 0, k);
      assert names[0..] == names;
      assert k in names <==> k in v.members.Keys;
    }
  }

  ghost function MemberText(v: Value, i: nat, x: string): string
    requires v.Obj? && i < |Names(v.members)|
  {
    var k := Names(v.members)[i];
    Quoted(k) + (":" + (Text(v.members[k]) + (MembersFrom(v, i + 1) + x)))
  }

  lemma {:induction false} MemberReads(v: Value, i: nat, x: string)
    requires v.Obj? && i < |Names(v.members)|
    ensures var k := Names(v.members)[i];
            ReadMember(MemberText(v, i, x)) == Some((k, v.members[k], MembersFrom(v, i + 1) + x))
    decreases v, 0, 0, 0
  {
    hide Text, ReadValue, MembersFrom, Names, Quoted, AfterSpace, ReadString;
    var k := Names(v.members)[i];
    var value := Text(v.members[k]) + (MembersFrom(v, i + 1) + x);
    QuotedReads(k, ":" + value);
    QuotedIsNoSpace(k);
    SpaceBefore(Quoted(k), ":" + value);
    SpaceBefore(":", value);
    AfterMark(':', value);
    RestStart(v, i + 1, x);
    ValueReads(v.members[k], MembersFrom(v, i + 1) + x);
  }

  lemma QuotedIsNoSpace(s: string)
    ensures Quoted(s) != [] && !IsSpace(Quoted(s)[0])
  {
    hide Encode;
  }

  lemma {:induction false} MembersRead(v: Value, i: nat, x: string)
    requires v.Obj? && i < |Names(v.members)|
    ensures ReadMembers(MemberText(v, i, x)) == Some((MembersAfter(v, i), x))
    decreases v, 0, |Names(v.members)| - i
  {
    hide Text, ReadMember, MembersFrom, Names, Quoted, AfterSpace, MemberText;
    var names := Names(v.members);
    MemberReads(v, i, x);
    RestStart(v, i + 1, x);
    if i + 1 == |names| {
      LastBracket(v, x);
      NoMembersAfter(v);
    } else {
      MembersUnfold(v, i + 1, x);
      MemberIsText(v, i + 1, x);
      AfterMark(',', MemberText(v, i + 1, x));
      MembersRead(v, i + 1, x);
      MembersAfterAt(v, i + 1, names[i]);
      NamesAreDistinct(v, i);
    }
  }

  lemma MemberIsText(v: Value, i: nat, x: string)
    requires v.Obj? && i < |Names(v.members)|
    ensures var k := Names(v.members)[i];
            MemberText(v, i, x) == Quoted(k) + (":" + (Text(v.members[k]) + (MembersFrom(v, i + 1) + x)))
  {
  }

  lemma NoMembersAfter(v: Value)
    requires v.Obj?
    ensures MembersAfter(v, |Names(v.members)|) == map[]
  {
  }

  lemma {:induction false} ArrayReads(v: Value, x: string)
    requires v.Arr?
    ensures ReadValue("[" + ItemsFrom(v, 0) + x) == Some((v, x))
    decreases v, 0, |v.items| + 1
  {
    hide Text, ReadItems, ItemsFrom, ReadString, ReadNumber, ReadMembers;
    var rest := ItemsFrom(v, 0) + x;
    assert "[" + ItemsFrom(v, 0) + x == "[" + rest && ("[" + rest)[1..] == rest;
    if v.items == [] {
      LastBracket(v, x);
    } else {
      FirstItem(v, x);
      ItemsRead(v, 0, x);
      assert v.items[0..] == v.items;
    }
  }

  lemma FirstItem(v: Value, x: string)
    requires v.Arr? && v.items != []
    ensures ItemsFrom(v, 0) + x == Text(v.items[0]) + (ItemsFrom(v, 1) + x)
    ensures !StartsWith(AfterSpace(ItemsFrom(v, 0) + x), ']')
  {
    hide Text;
    ItemsUnfold(v, 0, x);
    TextStart(v.items[0]);
    SpaceBefore(Text(v.items[0]), ItemsFrom(v, 1) + x);
  }

  lemma {:induction false} ObjectReads(v: Value, x: string)
    requires v.Obj?
    ensures ReadValue("{" + MembersFrom(v, 0) + x) == Some((v, x))
    decreases v, 0, |Names(v.members)| + 1
  {
    hide Text, ReadItems, MembersFrom, ReadString, ReadNumber, ReadMembers, Names, MembersAfter;
    var rest := MembersFrom(v, 0) + x;
    assert "{" + MembersFrom(v, 0) + x == "{" + rest && ("{" + rest)[1..] == rest;
    AllMembers(v);
    if |Names(v.members)| == 0 {
      LastBracket(v, x);
      NoMembersAfter(v);
    } else {
      FirstMember(v, x);
      MembersRead(v, 0, x);
    }
  }

  lemma FirstMember(v: Value, x: string)
    requires v.Obj? && |Names(v.members)| > 0
    ensures MembersFrom(v, 0) + x == MemberText(v, 0, x)
    ensures !StartsWith(AfterSpace(MembersFrom(v, 0) + x), '}')
  {
    hide Text, Names, Quoted, MembersFrom, AfterSpace, MemberText, ReadString;
    var k := Names(v.members)[0];
    var rest := ":" + (Text(v.members[k]) + (MembersFrom(v, 1) + x));
    MembersUnfold(v, 0, x);
    MemberIsText(v, 0, x);
    assert Comma(0) + (Quoted(k) + rest) == Quoted(k) + rest;
    QuotedIsNoSpace(k);
    SpaceBefore(Quoted(k), rest);
    QuotedReads(k, rest);
  }

  lemma OnlyNumber(s: string)
    requires s != [] && (s[0] == '-' || IsDigit(s[0]))
    ensures ReadValue(s) == ReadNumber(s)
  {
    hide ReadNumber, ReadString, ReadItems, ReadMembers;
  }

  /** In front of anything that ends a value, a reader of RFC 8259 reads the value from its text, nested to any
      depth. */
  lemma {:induction false} ValueReads(v: Value, x: string)
    requires Ends(x)
    ensures ReadValue(Text(v) + x) == Some((v, x))
    decreases v, 1, 0
  {
    hide Quoted, Numeral, ReadNumber, ReadString, ReadItems, ReadMembers, ItemsFrom, MembersFrom, AfterSpace, IsNumber;
    TextStart(v);
    SpaceBefore(Text(v), x);
    match v
    case Null => assert ("null" + x)[4..] == x;
    case Bool(b) => assert ("true" + x)[4..] == x && ("false" + x)[5..] == x;
    case Str(s) => QuotedReads(s, x);
    case Int(_) =>
      NumberReads(v, x);
      OnlyNumber(Text(v) + x);
    case Fraction(_) =>
      NumberReads(v, x);
      OnlyNumber(Text(v) + x);
    case Arr(_) => ArrayReads(v, x);
    case Obj(_) => ObjectReads(v, x);
  }

  lemma NamesOfTwo(members: map<string, Value>, a: string, b: string)
    requires members.Keys == {a, b} && Less(Utf16(a), Utf16(b))
    ensures Names(members) == [a, b]
  {
    EnumerationIsUnique(Utf16, Names(members), [a, b], members.Keys);
  }

  lemma OneCharacter(c: char)
    requires c as int >= 0x20 && c != '\"' && c != '\\'
    ensures Quoted([c]) == ['\"', c, '\"'] && Utf16([c]) == Units(c)
  {
    EncodeOne(Escape, c);
    EncodeOne(Units, c);
  }

  const LIST := Arr([Int(1), Bool(true)])

  lemma ListText()
    ensures Text(LIST) == "[1,true]"
  {
    assert ItemsFrom(LIST, 2) == "]";
    assert ItemsFrom(LIST, 1) == ",true]";
    assert Text(Int(1)) == "1";
    assert ItemsFrom(LIST, 0) == "1,true]";
  }

  /** Members are ordered by UTF-16 code units, in which a character beyond 16 bits precedes the last ones within,
      and nothing stands between the tokens. */
  lemma CanonicalExample()
    ensures Text(Obj(map["\U{FF61}" := LIST, "\U{1F600}" := Null])) ==
            ['{', '\"', '\U{1F600}', '\"', ':'] + "null" + [',', '\"', '\U{FF61}', '\"', ':'] + "[1,true]" + ['}']
  {
    var a, b := '\U{1F600}', '\U{FF61}';
    var v := Obj(map[[b] := LIST, [a] := Null]);
    OneCharacter(a);
    OneCharacter(b);
    hide Quoted, Escape, Names, Encode;
    assert Less(Utf16([a]), Utf16([b]));
    NamesOfTwo(v.members, [a], [b]);
    ListText();
    TwoMembers(v, [a], [b]);
  }

  lemma TwoMembers(v: Value, a: string, b: string)
    requires v.Obj? && Names(v.members) == [a, b]
    ensures Text(v) ==
            "{" + (Quoted(a) + ":" + Text(v.members[a]) + ("," + Quoted(b) + ":" + Text(v.members[b]) + "}"))
  {
    hide Quoted, Names;
    assert MembersFrom(v, 2) == "}";
    MembersFlat(v, 1);
    MembersFlat(v, 0);
    assert Comma(0) + Quoted(a) == Quoted(a);
  }

  /** Reading the canonical text of a value gives the value. */
  lemma TextReads(v: Value)
    ensures Read(Text(v)) == Some(v)
  {
    assert Text(v) + [] == Text(v);
    ValueReads(v, []);
  }

  /** So a value is determined by its text in front of anything that ends a value, */
  lemma ReadsBack(v: Value, w: Value, x: string, y: string)
    requires Ends(x) && Ends(y) && Text(v) + x == Text(w) + y
    ensures v == w && x == y
  {
    ValueReads(v, x);
    ValueReads(w, y);
  }

  /** and the encoding is injective. */
  lemma TextIsInjective(v: Value, w: Value)
    requires Text(v) == Text(w)
    ensures v == w
  {
    TextReads(v);
    TextReads(w);
  }

  // ---------------------------------------------------------------------------------------------
  // The writer

  lemma {:induction false} EncodeOfPrefix(s: string, i: nat)
    requires i < |s|
    ensures Encode(Escape, s[..i + 1]) == Encode(Escape, s[..i]) + Escape(s[i])
    decreases i
  {
    hide Escape;
    if i == 0 {
      assert s[..1] == [s[0]] && s[..1][1..] == [];
    } else {
      EncodeOfPrefix(s[1..], i - 1);
      assert s[..i + 1][1..] == s[1..][..i] && s[..i][1..] == s[1..][..i - 1];
    }
  }

  /** Appends to the text written so far while walking the value. */
  class Buffer {
    var text: string

    constructor ()
      ensures text == ""
    {
      text := "";
    }

    method WriteString(s: string)
      modifies this
      ensures text == old(text) + Quoted(s)
    {
      hide Escape;
      text := text + "\"";
      for i := 0 to |s|
        invariant text == old(text) + "\"" + Encode(Escape, s[..i])
      {
        EncodeOfPrefix(s, i);
        text := text + Escape(s[i]);
      }
      assert s[..|s|] == s;
      text := text + "\"";
    }

    method WriteValue(v: Value)
      modifies this
      ensures text == old(text) + Text(v)
      decreases v, 1, 0
    {
      hide Quoted, Decimal;
      match v
      case Null => text := text + "null";
      case Bool(b) => text := text + if b then "true" else "false";
      case Str(s) => WriteString(s);
      case Int(n) => text := text + Numeral(n);
      case Fraction(s) => text := text + s;
      case Arr(_) =>
        text := text + "[";
        WriteItems(v);
      case Obj(_) =>
        text := text + "{";
        WriteMembers(v);
    }

    /** The items with commas between them, and the closing bracket. */
    method WriteItems(v: Value)
      requires v.Arr?
      modifies this
      ensures text == old(text) + ItemsFrom(v, 0)
      decreases v, 0
    {
      hide Text;
      for i := 0 to |v.items|
        invariant text + ItemsFrom(v, i) == old(text) + ItemsFrom(v, 0)
      {
        ghost var before := text;
        ItemsUnfold(v, i, "");
        if i != 0 {
          text := text + ",";
        }
        WriteValue(v.items[i]);
        Appended(before, Comma(i), Text(v.items[i]), ItemsFrom(v, i + 1));
        assert text == before + Comma(i) + Text(v.items[i]);
      }
      text := text + "]";
    }

    /** The members in the order of their names. */
    method WriteMembers(v: Value)
      requires v.Obj?
      modifies this
      ensures text == old(text) + MembersFrom(v, 0)
      decreases v, 0
    {
      hide Text, Quoted;
      Utf16Orders();
      var names := SortKeys(Utf16, v.members.Keys);
      assert names == Names(v.members);
      for i := 0 to |names|
        invariant text + MembersFrom(v, i) == old(text) + MembersFrom(v, 0)
      {
        hide Names;
        ghost var before := text;
        if i != 0 {
          text := text + ",";
        }
        WriteString(names[i]);
        text := text + ":";
        ghost var named := text;
        WriteValue(v.members[names[i]]);
        assert named == before + Comma(i) + Quoted(names[i]) + ":";
        MemberAppended(before, v, i);
      }
      text := text + "}";
    }
  }

  lemma Appended(before: string, a: string, b: string, c: string)
    ensures before + (a + b + c) == before + a + b + c
  {
  }

  lemma MembersFlat(v: Value, i: nat)
    requires v.Obj? && i < |Names(v.members)|
    ensures var k := Names(v.members)[i];
            MembersFrom(v, i) == Comma(i) + Quoted(k) + ":" + Text(v.members[k]) + MembersFrom(v, i + 1)
  {
    hide Text, Quoted, Names;
  }

  lemma MemberAppended(before: string, v: Value, i: nat)
    requires v.Obj? && i < |Names(v.members)|
    ensures var k := Names(v.members)[i];
            before + MembersFrom(v, i) ==
            before + Comma(i) + Quoted(k) + ":" + Text(v.members[k]) + MembersFrom(v, i + 1)
  {
    hide *;
    var k := Names(v.members)[i];
    MembersFlat(v, i);
    Appended(before, Comma(i) + Quoted(k) + ":", Text(v.members[k]), MembersFrom(v, i + 1));
    Appended(before, Comma(i), Quoted(k), ":");
  }
}
