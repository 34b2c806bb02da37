/** Tag lists as text (`identity_record.go`): elements `name=value` separated by semicolons. A character stands
    for a byte; bytes outside ASCII are refused in names and values. */
module TagText {
  import opened Wrappers

  // ---------------------------------------------------------------------------------------------
  // Splitting and joining

  function Split(s: string, sep: char): (parts: seq<string>)
    ensures parts != []
  {
    if s == [] then [""]
    else
      var rest := Split(s[1..], sep);
      if s[0] == sep then [""] + rest else [[s[0]] + rest[0]] + rest[1..]
  }

  function Join(parts: seq<string>, sep: char): string {
    if parts == [] then ""
    else if |parts| == 1 then parts[0]
    else parts[0] + [sep] + Join(parts[1..], sep)
  }

  lemma {:induction false} JoinOfSplit(s: string, sep: char)
    ensures Join(Split(s, sep), sep) == s
  {
    if s != [] {
      JoinOfSplit(s[1..], sep);
      var rest := Split(s[1..], sep);
      if s[0] == sep {
        assert Split(s, sep)[1..] == rest;
      } else {
        JoinOfLongerFirst(s[0], rest, sep);
      }
    }
  }

  lemma JoinOfLongerFirst(c: char, parts: seq<string>, sep: char)
    requires parts != []
    ensures Join([[c] + parts[0]] + parts[1..], sep) == [c] + Join(parts, sep)
  {
    assert ([[c] + parts[0]] + parts[1..])[1..] == parts[1..];
  }

  predicate Free(s: string, c: char) {
    forall i | 0 <= i < |s| :: s[i] != c
  }

  lemma {:induction false} SplitIsFree(s: string, sep: char)
    ensures forall i | 0 <= i < |Split(s, sep)| :: Free(Split(s, sep)[i], sep)
  {
    if s != [] {
      SplitIsFree(s[1..], sep);
    }
  }

  lemma {:induction false} SplitWithout(s: string, sep: char)
    requires Free(s, sep)
    ensures Split(s, sep) == [s]
  {
    if s != [] {
      SplitWithout(s[1..], sep);
      assert [s[0]] + s[1..] == s;
    }
  }

  lemma {:induction false} SplitAfter(s: string, rest: string, sep: char)
    requires Free(s, sep)
    ensures Split(s + [sep] + rest, sep) == [s] + Split(rest, sep)
  {
    var whole := s + [sep] + rest;
    if s == [] {
      assert whole[1..] == rest;
    } else {
      SplitAfter(s[1..], rest, sep);
      assert whole[1..] == s[1..] + [sep] + rest;
      assert [s[0]] + s[1..] == s;
    }
  }

  lemma {:induction false} SplitOfJoin(parts: seq<string>, sep: char)
    requires parts != [] && forall i | 0 <= i < |parts| :: Free(parts[i], sep)
    ensures Split(Join(parts, sep), sep) == parts
  {
    if |parts| == 1 {
      SplitWithout(parts[0], sep);
    } else {
      SplitAfter(parts[0], Join(parts[1..], sep), sep);
      SplitOfJoin(parts[1..], sep);
    }
  }

  // ---------------------------------------------------------------------------------------------
  // Elements

  datatype Tag = Tag(name: string, value: string)

  predicate IsAlpha(c: char) {
    'A' <= c <= 'Z' || 'a' <= c <= 'z'
  }

  predicate NameChar(c: char) {
    IsAlpha(c) || '0' <= c <= '9' || c == '_'
  }

  predicate ValidName(name: string) {
    name != "" && IsAlpha(name[0]) && forall i | 1 <= i < |name| :: NameChar(name[i])
  }

  predicate ValueChar(c: char) {
    0x21 <= c as int <= 0x7e && c != ';'
  }

  predicate ValidValue(value: string) {
    forall i | 0 <= i < |value| :: ValueChar(value[i])
  }

  predicate ValidTag(tag: Tag) {
    ValidName(tag.name) && ValidValue(tag.value)
  }

  function ElementText(tag: Tag): string {
    tag.name + "=" + tag.value
  }

  /** The position of a character, or the length of the text. */
  function IndexOf(s: string, c: char): (i: nat)
    ensures i <= |s| && Free(s[..i], c) && (i < |s| ==> s[i] == c)
  {
    if s == [] || s[0] == c then 0 else
    var i := IndexOf(s[1..], c) + 1;
    assert s[..i] == [s[0]] + s[1..][..i - 1];
    i
  }

  /** One optional space is dropped, except at the very beginning. */
  function Trimmed(piece: string, first: bool): string {
    if !first && piece != [] && piece[0] == ' ' then piece[1..] else piece
  }

  function ReadElement(piece: string, first: bool): Option<Tag> {
    var text := Trimmed(piece, first);
    var i := IndexOf(text, '=');
    if i == 0 || i == |text| then None
    else
      var tag := Tag(text[..i], text[i + 1..]);
      if ValidTag(tag) then Some(tag) else None
  }

  lemma NameIsFree(name: string, c: char)
    requires ValidName(name) && !NameChar(c)
    ensures Free(name, c)
  {
  }

  /** What is read from one piece. */
  lemma ElementRead(piece: string, first: bool, tag: Tag)
    ensures ReadElement(piece, first) == Some(tag) <==>
            ValidTag(tag) && (piece == ElementText(tag) || (!first && piece == " " + ElementText(tag)))
  {
    hide *;
    if ReadElement(piece, first) == Some(tag) {
      ReadElementWasWritten(piece, first, tag);
    }
    if ValidTag(tag) && (piece == ElementText(tag) || (!first && piece == " " + ElementText(tag))) {
      WrittenElementIsRead(piece, first, tag);
    }
  }

  lemma ReadElementWasWritten(piece: string, first: bool, tag: Tag)
    requires ReadElement(piece, first) == Some(tag)
    ensures ValidTag(tag) && (piece == ElementText(tag) || (!first && piece == " " + ElementText(tag)))
  {
    hide ValidTag;
    var text := Trimmed(piece, first);
    var i := IndexOf(text, '=');
    assert text == text[..i] + [text[i]] + text[i + 1..];
    assert piece != text ==> piece == " " + text;
  }

  lemma WrittenElementIsRead(piece: string, first: bool, tag: Tag)
    requires ValidTag(tag) && (piece == ElementText(tag) || (!first && piece == " " + ElementText(tag)))
    ensures ReadElement(piece, first) == Some(tag)
  {
    hide ValidTag, ElementText, IndexOf;
    ElementIsTrimmed(piece, first, tag);
    IndexOfEquals(tag);
  }

  lemma ElementIsTrimmed(piece: string, first: bool, tag: Tag)
    requires ValidTag(tag) && (piece == ElementText(tag) || (!first && piece == " " + ElementText(tag)))
    ensures Trimmed(piece, first) == ElementText(tag)
  {
    assert ElementText(tag)[0] == tag.name[0];
  }

  lemma IndexOfEquals(tag: Tag)
    requires ValidTag(tag)
    ensures 0 < IndexOf(ElementText(tag), '=') == |tag.name| < |ElementText(tag)|
    ensures ElementText(tag)[..|tag.name|] == tag.name && ElementText(tag)[|tag.name| + 1..] == tag.value
  {
    NameIsFree(tag.name, '=');
    assert ElementText(tag)[..|tag.name|] == tag.name;
    IndexIsFirst(ElementText(tag), '=', |tag.name|);
  }

  lemma {:induction false} IndexIsFirst(s: string, c: char, n: nat)
    requires n < |s| && s[n] == c && Free(s[..n], c)
    ensures IndexOf(s, c) == n
    decreases n
  {
    if n > 0 {
      assert s[..n][0] == s[0];
      assert s[1..][..n - 1] == s[..n][1..];
      IndexIsFirst(s[1..], c, n - 1);
    }
  }

  // ---------------------------------------------------------------------------------------------
  // Lists of tags

  predicate HasName(tags: seq<Tag>, name: string) {
    exists i | 0 <= i < |tags| :: tags[i].name == name
  }

  ghost predicate DistinctNames(tags: seq<Tag>) {
    forall i, j | 0 <= i < j < |tags| :: tags[i].name != tags[j].name
  }

  ghost predicate ValidTags(tags: seq<Tag>) {
    DistinctNames(tags) && forall i | 0 <= i < |tags| :: ValidTag(tags[i])
  }

  /** The first `n` pieces; only the last of all may be empty. */
  function ReadPieces(pieces: seq<string>, n: nat): Option<seq<Tag>>
    requires n <= |pieces|
    decreases n
  {
    if n == 0 then Some([])
    else
      match ReadPieces(pieces, n - 1)
      case None => None
      case Some(tags) =>
        if pieces[n - 1] == "" then if n == |pieces| then Some(tags) else None
        else
          match ReadElement(pieces[n - 1], n == 1)
          case None => None
          case Some(tag) => if HasName(tags, tag.name) then None else Some(tags + [tag])
  }

  /** The tags of a text, in order. */
  function ReadTags(text: string): Option<seq<Tag>> {
    if text == "" then None else ReadPieces(Split(text, ';'), |Split(text, ';')|)
  }

  /** A way of writing a list of tags: optional spaces before all but the first, and a semicolon at the end. */
  datatype Style = Style(spaces: set<nat>, trailing: bool)

  const PLAIN := Style({}, false)

  function Piece(tags: seq<Tag>, style: Style, i: nat): string
    requires i < |tags|
  {
    if i > 0 && i in style.spaces then " " + ElementText(tags[i]) else ElementText(tags[i])
  }

  function Pieces(tags: seq<Tag>, style: Style): (pieces: seq<string>)
    ensures |pieces| == |tags| + if style.trailing then 1 else 0
    ensures forall i | 0 <= i < |tags| :: pieces[i] == Piece(tags, style, i)
    ensures style.trailing ==> pieces[|tags|] == ""
  {
    seq(|tags|, i requires 0 <= i < |tags| => Piece(tags, style, i)) + if style.trailing then [""] else []
  }

  function Render(tags: seq<Tag>, style: Style): string {
    Join(Pieces(tags, style), ';')
  }

  lemma PiecesAreFree(tags: seq<Tag>, style: Style, i: nat)
    requires ValidTags(tags) && i < |Pieces(tags, style)|
    ensures Free(Pieces(tags, style)[i], ';')
    ensures i < |tags| ==> Pieces(tags, style)[i] != "" && ReadElement(Pieces(tags, style)[i], i == 0) == Some(tags[i])
  {
    hide ReadElement;
    if i < |tags| {
      NameIsFree(tags[i].name, ';');
      ElementRead(Pieces(tags, style)[i], i == 0, tags[i]);
    }
  }

  lemma {:induction false} PiecesReadBack(tags: seq<Tag>, style: Style, n: nat)
    requires ValidTags(tags) && n <= |tags|
    ensures ReadPieces(Pieces(tags, style), n) == Some(tags[..n])
    decreases n
  {
    hide ReadElement, Pieces, Piece;
    if n > 0 {
      PiecesReadBack(tags, style, n - 1);
      PiecesAreFree(tags, style, n - 1);
      assert tags[..n] == tags[..n - 1] + [tags[n - 1]];
      assert !HasName(tags[..n - 1], tags[n - 1].name);
    }
  }

  lemma TextIsNotEmpty(parts: seq<string>, sep: char)
    requires parts != [] && (|parts| > 1 || parts[0] != "")
    ensures Join(parts, sep) != ""
  {
  }

  /** Every way of writing a nonempty list of valid tags reads back as the list. */
  lemma RenderingReadsBack(tags: seq<Tag>, style: Style)
    requires ValidTags(tags) && tags != []
    ensures ReadTags(Render(tags, style)) == Some(tags)
  {
    hide ReadElement, Pieces, Piece, Split, Join, ReadPieces;
    var pieces := Pieces(tags, style);
    forall i | 0 <= i < |pieces| ensures Free(pieces[i], ';') {
      PiecesAreFree(tags, style, i);
    }
    PiecesAreFree(tags, style, 0);
    TextIsNotEmpty(pieces, ';');
    SplitOfJoin(pieces, ';');
    PiecesReadBack(tags, style, |tags|);
    assert tags[..|tags|] == tags;
    if style.trailing {
      EmptyLastPiece(pieces);
    }
  }

  lemma EmptyLastPiece(pieces: seq<string>)
    requires pieces != [] && pieces[|pieces| - 1] == "" && ReadPieces(pieces, |pieces| - 1).Some?
    ensures ReadPieces(pieces, |pieces|) == ReadPieces(pieces, |pieces| - 1)
  {
    hide ReadElement;
  }

  /** The pieces that were preceded by a space. */
  function SpacesOf(pieces: seq<string>): set<nat> {
    set i | 0 < i < |pieces| && pieces[i] != "" && pieces[i][0] == ' '
  }

  lemma {:induction false} PiecesWereWritten(pieces: seq<string>, n: nat)
    requires n <= |pieces| && ReadPieces(pieces, n).Some? && (n == |pieces| && n > 0 ==> pieces[n - 1] != "")
    ensures var tags := ReadPieces(pieces, n).value;
            && |tags| == n && ValidTags(tags)
            && forall i | 0 <= i < n :: pieces[i] == Piece(tags, Style(SpacesOf(pieces), false), i)
    decreases n
  {
    hide ReadElement;
    if n > 0 {
      PiecesWereWritten(pieces, n - 1);
      var tags := ReadPieces(pieces, n).value;
      var tag := tags[n - 1];
      ElementRead(pieces[n - 1], n == 1, tag);
      assert ElementText(tag)[0] == tag.name[0];
      assert pieces[n - 1] == Piece(tags, Style(SpacesOf(pieces), false), n - 1);
    }
  }

  /** Conversely, every text that is read is a way of writing its tags. */
  lemma ReadTextWasWritten(text: string) returns (style: Style)
    requires ReadTags(text).Some?
    ensures ValidTags(ReadTags(text).value) && text == Render(ReadTags(text).value, style)
  {
    hide ReadElement, Piece, Split, ReadPieces, ValidTags, Join;
    var pieces := Split(text, ';');
    var tags := ReadTags(text).value;
    JoinOfSplit(text, ';');
    if pieces[|pieces| - 1] == "" {
      style := Style(SpacesOf(pieces), true);
      PrefixWasRead(pieces);
      EmptyLastPiece(pieces);
      PiecesWereWritten(pieces, |pieces| - 1);
      SameSpaces(tags, style);
      assert pieces == Pieces(tags, style);
    } else {
      style := Style(SpacesOf(pieces), false);
      PiecesWereWritten(pieces, |pieces|);
      assert pieces == Pieces(tags, style);
    }
  }

  lemma PrefixWasRead(pieces: seq<string>)
    requires pieces != [] && ReadPieces(pieces, |pieces|).Some?
    ensures ReadPieces(pieces, |pieces| - 1).Some?
  {
    hide ReadElement;
  }

  lemma SameSpaces(tags: seq<Tag>, style: Style)
    ensures forall i | 0 <= i < |tags| :: Piece(tags, style, i) == Piece(tags, Style(style.spaces, false), i)
  {
  }
}
