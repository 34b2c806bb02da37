/** Identity TXT records: their tags, wire form and signing form (`identity_record.go`). */
module TxtRecord {
  import opened Wrappers
  import opened Unicode
  import opened Ordering
  import opened TagText

  type TagMap = map<string, string>

  const KNOWN := {"gi", "ek", "ku", "lr", "su", "sg", "fl", "ka", "cu"}

  const FIELDS := KNOWN + {"v"}

  const REQUIRED := {"gi", "ek", "ku", "lr", "su"}

  const KEY_AGES := {"24h", "7d", "30d", "90d"}

  predicate SupportedVersion(version: string) {
    version == "dnsid-draft-01" || version == "DNSid1"
  }

  datatype Record = Record(
    version: string,
    governanceId: string,
    entityKeyUri: string,
    keyUri: string,
    logRef: string,
    statusUri: string,
    signature: string,
    flags: seq<string>,
    keyAge: string,
    capabilities: string,
    unknownTags: TagMap,
    parsedTags: set<string>)

  /** The value of the version or a known tag. */
  function Field(rec: Record, name: string): string {
    if name == "v" then rec.version
    else if name == "gi" then rec.governanceId
    else if name == "ek" then rec.entityKeyUri
    else if name == "ku" then rec.keyUri
    else if name == "lr" then rec.logRef
    else if name == "su" then rec.statusUri
    else if name == "sg" then rec.signature
    else if name == "fl" then Join(rec.flags, ',')
    else if name == "ka" then rec.keyAge
    else if name == "cu" then rec.capabilities
    else ""
  }

  predicate IsSet(rec: Record, name: string) {
    if name == "fl" then rec.flags != [] else Field(rec, name) != ""
  }

  predicate IsField(name: string) {
    name == "v" || name in KNOWN
  }

  predicate Present(rec: Record, name: string) {
    if IsField(name) then name in rec.parsedTags || IsSet(rec, name) else name in rec.unknownTags
  }

  /** The tags of a record: known fields that are set or were parsed, and extension tags. */
  function Tags(rec: Record): TagMap {
    map name | name in FIELDS + rec.unknownTags.Keys && Present(rec, name) ::
      if IsField(name) then Field(rec, name) else rec.unknownTags[name]
  }

  lemma TagsAt(rec: Record, name: string)
    ensures name in Tags(rec) <==> Present(rec, name)
    ensures name in Tags(rec) ==> Tags(rec)[name] == if IsField(name) then Field(rec, name) else rec.unknownTags[name]
  {
    hide Field, IsSet;
  }

  function Get(tags: TagMap, name: string): string {
    if name in tags then tags[name] else ""
  }

  /** The tags hold the parsed fields, and those of the given ones that are set. */
  ghost predicate HoldsFields(rec: Record, tags: TagMap, parsed: set<string>, given: set<string>) {
    && (forall name :: name in tags <==> IsField(name) && (name in parsed || (name in given && IsSet(rec, name))))
    && forall name | name in tags :: tags[name] == Field(rec, name)
  }

  method ParsedFields(rec: Record) returns (tags: TagMap)
    ensures HoldsFields(rec, tags, rec.parsedTags, {})
  {
    hide Field, IsSet, IsField;
    tags := map[];
    var todo := rec.parsedTags;
    while todo != {}
      invariant todo <= rec.parsedTags && HoldsFields(rec, tags, rec.parsedTags - todo, {})
    {
      var name :| name in todo;
      todo := todo - {name};
      if IsField(name) {
        tags := tags[name := Field(rec, name)];
      }
    }
  }

  method SetFields(rec: Record, parsed: TagMap) returns (tags: TagMap)
    requires HoldsFields(rec, parsed, rec.parsedTags, {})
    ensures HoldsFields(rec, tags, rec.parsedTags, FIELDS)
  {
    hide Field, IsSet, IsField, FIELDS, KNOWN;
    tags := parsed;
    var todo := FIELDS;
    assert FIELDS - todo == {};
    while todo != {}
      invariant todo <= FIELDS && HoldsFields(rec, tags, rec.parsedTags, FIELDS - todo)
    {
      var name :| name in todo;
      FieldsAreNamed(name);
      todo := todo - {name};
      if IsSet(rec, name) {
        tags := tags[name := Field(rec, name)];
      }
    }
    assert FIELDS - todo == FIELDS;
  }

  lemma FieldsAreNamed(name: string)
    ensures name in FIELDS <==> IsField(name)
  {
  }

  method CollectTags(rec: Record) returns (tags: TagMap)
    ensures tags == Tags(rec)
  {
    hide Field, IsSet, IsField, Tags;
    tags := ParsedFields(rec);
    tags := SetFields(rec, tags);
    ghost var fields := tags;
    var todo := rec.unknownTags.Keys;
    while todo != {}
      invariant todo <= rec.unknownTags.Keys
      invariant forall name :: name in tags <==>
                  || name in fields
                  || (name in rec.unknownTags && name !in todo && !IsField(name))
      invariant forall name | name in tags ::
                  tags[name] == if IsField(name) then Field(rec, name) else rec.unknownTags[name]
    {
      var name :| name in todo;
      todo := todo - {name};
      if !IsField(name) {
        tags := tags[name := rec.unknownTags[name]];
      }
    }
    forall name ensures (name in tags <==> name in Tags(rec)) && (name in tags ==> tags[name] == Tags(rec)[name]) {
      TagsAt(rec, name);
      FieldsAreNamed(name);
    }
  }

  lemma FieldOfTags(rec: Record, name: string)
    requires IsField(name)
    ensures Get(Tags(rec), name) == Field(rec, name)
  {
    hide Tags, IsField, KNOWN;
    TagsAt(rec, name);
    UnsetIsEmpty(rec, name);
  }

  lemma UnsetIsEmpty(rec: Record, name: string)
    ensures !IsSet(rec, name) ==> Field(rec, name) == ""
  {
  }

  // ---------------------------------------------------------------------------------------------
  // Serialization

  lemma Utf8Orders()
    ensures Injective(Utf8)
  {
    forall a, b | Utf8(a) == Utf8(b) ensures a == b {
      Utf8IsInjective(a, b);
    }
  }

  ghost function SortedNames(names: set<string>): (r: seq<string>)
    ensures Enumerates(Utf8, r, names)
  {
    Utf8Orders();
    Sorted(Utf8, names)
  }

  function Listed(names: seq<string>, tags: TagMap): (list: seq<Tag>)
    requires forall i | 0 <= i < |names| :: names[i] in tags
    ensures |list| == |names| && forall i | 0 <= i < |names| :: list[i] == Tag(names[i], tags[names[i]])
  {
    seq(|names|, i requires 0 <= i < |names| => Tag(names[i], tags[names[i]]))
  }

  /** All tags in the order of their names. */
  ghost function Alphabetical(tags: TagMap): seq<Tag> {
    var names := SortedNames(tags.Keys);
    assert forall i | 0 <= i < |names| :: names[i] in names;
    Listed(names, tags)
  }

  /** The version first, then the others in the order of their names. */
  ghost function VersionFirst(tags: TagMap): seq<Tag> {
    var names := SortedNames(tags.Keys - {"v"});
    assert forall i | 0 <= i < |names| :: names[i] in names;
    (if "v" in tags then [Tag("v", tags["v"])] else []) + Listed(names, tags)
  }

  /** `list` names every tag of the map once. */
  ghost predicate Lists(list: seq<Tag>, tags: TagMap) {
    && DistinctNames(list)
    && (forall i | 0 <= i < |list| :: list[i].name in tags && tags[list[i].name] == list[i].value)
    && forall name | name in tags :: HasName(list, name)
  }

  lemma AscendingIsDistinct(names: seq<string>, i: nat, j: nat)
    requires Ascending(Utf8, names) && i < j < |names|
    ensures names[i] != names[j]
  {
    LessIsIrreflexive(Utf8(names[i]));
  }

  lemma ListedLists(names: seq<string>, keys: set<string>, tags: TagMap)
    requires Enumerates(Utf8, names, keys) && keys <= tags.Keys
    ensures forall i | 0 <= i < |names| :: names[i] in tags
    ensures DistinctNames(Listed(names, tags))
    ensures forall name | name in keys :: HasName(Listed(names, tags), name)
    ensures forall i | 0 <= i < |names| :: Listed(names, tags)[i].name in keys
  {
    assert forall i | 0 <= i < |names| :: names[i] in names;
    var list := Listed(names, tags);
    forall i, j | 0 <= i < j < |list| ensures list[i].name != list[j].name {
      AscendingIsDistinct(names, i, j);
    }
    forall name | name in keys ensures HasName(list, name) {
      var i :| 0 <= i < |names| && names[i] == name;
      assert list[i].name == name;
    }
  }

  lemma AlphabeticalLists(tags: TagMap)
    ensures Lists(Alphabetical(tags), tags)
  {
    hide Ascending;
    ListedLists(SortedNames(tags.Keys), tags.Keys, tags);
  }

  lemma VersionFirstLists(tags: TagMap)
    ensures Lists(VersionFirst(tags), tags)
    ensures "v" in tags ==> VersionFirst(tags) != [] && VersionFirst(tags)[0].name == "v"
  {
    hide Ascending, Enumerates, HasName;
    var names := SortedNames(tags.Keys - {"v"});
    ListedLists(names, tags.Keys - {"v"}, tags);
    var rest, list := Listed(names, tags), VersionFirst(tags);
    forall name | name in tags ensures HasName(list, name) {
      if name == "v" {
        NameAt(list, 0);
      } else {
        assert HasName(rest, name);
        NamesAfter(list, rest, name);
      }
    }
  }

  lemma NameAt(list: seq<Tag>, i: nat)
    requires i < |list|
    ensures HasName(list, list[i].name)
  {
  }

  lemma NamesAfter(list: seq<Tag>, rest: seq<Tag>, name: string)
    requires HasName(rest, name) && |list| >= |rest| && list[|list| - |rest|..] == rest
    ensures HasName(list, name)
  {
    var i :| 0 <= i < |rest| && rest[i].name == name;
    assert list[|list| - |rest| + i] == rest[i];
  }

  /** The map of a list of tags. */
  function MapOf(list: seq<Tag>): TagMap
    decreases |list|
  {
    if list == [] then map[]
    else
      var last := list[|list| - 1];
      MapOf(list[..|list| - 1])[last.name := last.value]
  }

  lemma {:induction false} MapOfList(list: seq<Tag>, name: string)
    ensures name in MapOf(list) <==> HasName(list, name)
    ensures DistinctNames(list) ==>
              forall i | 0 <= i < |list| && list[i].name == name :: MapOf(list)[name] == list[i].value
    decreases |list|
  {
    if list != [] {
      var init := list[..|list| - 1];
      MapOfList(init, name);
      NameInLonger(list, name);
    }
  }

  lemma NameInLonger(list: seq<Tag>, name: string)
    requires list != []
    ensures HasName(list, name) <==> HasName(list[..|list| - 1], name) || list[|list| - 1].name == name
  {
    var init := list[..|list| - 1];
    if HasName(init, name) {
      var i :| 0 <= i < |init| && init[i].name == name;
      assert list[i].name == name;
    }
    if HasName(list, name) {
      var i :| 0 <= i < |list| && list[i].name == name;
      assert i < |init| ==> init[i] == list[i];
    }
  }

  /** The signing form is in ascending order of the names, and so is the wire form after the version. */
  lemma FormsAreAscending(tags: TagMap)
    ensures var list := Alphabetical(tags);
            forall i, j | 0 <= i < j < |list| :: Less(Utf8(list[i].name), Utf8(list[j].name))
    ensures var list := VersionFirst(tags);
            forall i, j | 0 <= i < j < |list| && list[i].name != "v" :: Less(Utf8(list[i].name), Utf8(list[j].name))
  {
    hide Less;
    var rest := SortedNames(tags.Keys - {"v"});
    assert forall i | 0 <= i < |rest| :: rest[i] in rest;
  }

  /** A list that names every tag once determines the map. */
  lemma ListDetermines(list: seq<Tag>, tags: TagMap)
    ensures Lists(list, tags) <==> DistinctNames(list) && MapOf(list) == tags
  {
    hide HasName, MapOf;
    if Lists(list, tags) {
      forall name ensures (name in MapOf(list) <==> name in tags)
          && (name in tags ==> MapOf(list)[name] == tags[name]) {
        MapOfList(list, name);
        if HasName(list, name) {
          var i := NamedAt(list, name);
          assert list[i].name in tags;
        }
      }
      assert MapOf(list) == tags;
    }
    if DistinctNames(list) && MapOf(list) == tags {
      forall i | 0 <= i < |list| ensures list[i].name in tags && tags[list[i].name] == list[i].value {
        NameAt(list, i);
        MapOfList(list, list[i].name);
      }
      forall name | name in tags ensures HasName(list, name) {
        MapOfList(list, name);
      }
    }
  }

  lemma NamedAt(list: seq<Tag>, name: string) returns (i: nat)
    requires HasName(list, name)
    ensures i < |list| && list[i].name == name
  {
    i :| 0 <= i < |list| && list[i].name == name;
  }

  ghost predicate ValidSyntax(tags: TagMap) {
    forall name | name in tags :: ValidName(name) && ValidValue(tags[name])
  }

  lemma ListsAreValid(list: seq<Tag>, tags: TagMap)
    requires Lists(list, tags) && ValidSyntax(tags)
    ensures ValidTags(list)
  {
  }

  // ---------------------------------------------------------------------------------------------
  // Records

  /** The wire form. */
  ghost function Marshal(rec: Record): Option<string> {
    if SupportedVersion(rec.version) && (forall name | name in REQUIRED :: Field(rec, name) != "")
        && rec.signature != ""
       && ValidSyntax(Tags(rec))
    then Some(Render(VersionFirst(Tags(rec)), PLAIN))
    else None
  }

  /** The bytes that the signature covers. Every supported profile signs in alphabetical order; other records are
      written with the version first. */
  ghost function CanonicalContent(rec: Record): string {
    var tags := Tags(rec) - {"sg"};
    Render(if SupportedVersion(rec.version) then Alphabetical(tags) else VersionFirst(tags), PLAIN)
  }

  /** What a parser asks of the tags. */
  predicate Acceptable(tags: TagMap) {
    && SupportedVersion(Get(tags, "v"))
    && (forall name | name in REQUIRED :: Get(tags, name) != "")
    && (Get(tags, "ka") == "" || Get(tags, "ka") in KEY_AGES)
  }

  function FromTags(tags: TagMap): Record {
    Record(Get(tags, "v"), Get(tags, "gi"), Get(tags, "ek"), Get(tags, "ku"), Get(tags, "lr"), Get(tags, "su"),
           Get(tags, "sg"),
           if Get(tags, "fl") != "" then Split(Get(tags, "fl"), ',') else [],
           Get(tags, "ka"), Get(tags, "cu"),
           map name | name in tags && name != "v" && name !in KNOWN :: tags[name],
           tags.Keys)
  }

  /** Parses a published record. */
  function Parse(text: string): Option<Record> {
    match ReadTags(text)
    case None => None
    case Some(list) =>
      if list != [] && list[0].name == "v" && Acceptable(MapOf(list)) && Get(MapOf(list), "sg") != ""
      then Some(FromTags(MapOf(list))) else None
  }

  predicate HasPrefix(text: string, prefix: string) {
    prefix <= text
  }

  function TrimPrefix(text: string, prefix: string): string {
    if prefix <= text then text[|prefix|..] else text
  }

  /** Parses unsigned canonical content. Every supported profile signs in alphabetical order. */
  ghost function ParseUnsigned(text: string): Option<Record> {
    if HasPrefix(text, "v=") && !SupportedVersion(TrimPrefix(Split(text, ';')[0], "v=")) then None
    else
      match ReadTags(text)
      case None => None
      case Some(list) =>
        if HasName(list, "sg") || !Acceptable(MapOf(list)) then None
        else if CanonicalContent(FromTags(MapOf(list))) != text then None
        else Some(FromTags(MapOf(list)))
  }

  // ---------------------------------------------------------------------------------------------
  // Round trips

  lemma FieldOfParsed(tags: TagMap, name: string)
    requires IsField(name)
    ensures Field(FromTags(tags), name) == Get(tags, name)
  {
    hide Split, Join, Get;
    JoinOfSplit(Get(tags, "fl"), ',');
    JoinNothing();
  }

  lemma JoinNothing()
    ensures Join([], ',') == ""
  {
  }

  /** A parsed record has exactly the tags it was parsed from, empty and unknown ones included. */
  lemma TagsOfParsed(tags: TagMap)
    ensures Tags(FromTags(tags)) == tags
  {
    hide Field, Get, Split, Tags, Present;
    var rec := FromTags(tags);
    forall name ensures (name in Tags(rec) <==> name in tags) && (name in tags ==> Tags(rec)[name] == tags[name]) {
      TagsAt(rec, name);
      ParsedPresence(tags, name);
      if IsField(name) {
        FieldOfParsed(tags, name);
        GetOf(tags, name);
      }
    }
  }

  lemma GetOf(tags: TagMap, name: string)
    ensures name in tags ==> Get(tags, name) == tags[name]
  {
  }

  lemma ParsedPresence(tags: TagMap, name: string)
    ensures Present(FromTags(tags), name) <==> name in tags
  {
    hide Split;
    if IsField(name) {
      FieldOfParsed(tags, name);
      UnsetIsEmpty(FromTags(tags), name);
    }
  }

  /** Every text of a list of tags, whatever its order, spaces and trailing semicolon, parses to a record that
      depends on the tags alone, if the version comes first. */
  lemma ParseOfRendering(list: seq<Tag>, style: Style, tags: TagMap)
    requires Lists(list, tags) && ValidSyntax(tags) && list != []
    ensures Parse(Render(list, style)) ==
            if list[0].name == "v" && Acceptable(tags) && Get(tags, "sg") != "" then Some(FromTags(tags)) else None
  {
    hide Render, ReadTags, Acceptable, FromTags, Lists, MapOf;
    ListsAreValid(list, tags);
    RenderingReadsBack(list, style);
    ListDetermines(list, tags);
  }

  lemma RequiredAreFields(name: string)
    requires name in REQUIRED + {"v", "sg", "ka"}
    ensures IsField(name)
  {
  }

  lemma MarshalledIsAcceptable(rec: Record)
    requires Marshal(rec).Some?
    ensures "v" in Tags(rec) && Get(Tags(rec), "sg") != ""
    ensures Acceptable(Tags(rec)) <==> rec.keyAge == "" || rec.keyAge in KEY_AGES
  {
    hide Tags, Render, ValidSyntax, IsField, Field, Get;
    var tags := Tags(rec);
    forall name | name in REQUIRED + {"v", "sg", "ka"} ensures Get(tags, name) == Field(rec, name) {
      RequiredAreFields(name);
      FieldOfTags(rec, name);
    }
    NamedFields(rec);
    VersionIsPresent(tags);
  }

  lemma NamedFields(rec: Record)
    ensures Field(rec, "v") == rec.version && Field(rec, "sg") == rec.signature && Field(rec, "ka") == rec.keyAge
  {
  }

  lemma VersionIsPresent(tags: TagMap)
    requires SupportedVersion(Get(tags, "v"))
    ensures "v" in tags
  {
  }

  /** Exactly complete records of valid syntax are marshalled. */
  lemma MarshalsExactly(rec: Record)
    ensures Marshal(rec).Some? <==>
              && (rec.version == "dnsid-draft-01" || rec.version == "DNSid1")
              && rec.governanceId != "" && rec.entityKeyUri != "" && rec.keyUri != "" && rec.logRef != ""
              && rec.statusUri != "" && rec.signature != "" && ValidSyntax(Tags(rec))
  {
    hide Tags, Render, ValidSyntax, VersionFirst, Field;
    FieldsByName(rec);
    assert forall name | name in REQUIRED :: name in {"gi", "ek", "ku", "lr", "su"};
    assert "gi" in REQUIRED && "ek" in REQUIRED && "ku" in REQUIRED && "lr" in REQUIRED && "su" in REQUIRED;
  }

  /** Marshalling then parsing: it succeeds exactly if the key age is empty or allowed, and gives back the
      same tags. */
  lemma MarshalRoundTrip(rec: Record)
    requires Marshal(rec).Some?
    ensures var parsed := Parse(Marshal(rec).value);
            && (parsed.Some? <==> rec.keyAge == "" || rec.keyAge in KEY_AGES)
            && (parsed.Some? ==> Tags(parsed.value) == Tags(rec))
  {
    hide Render, Parse, Tags, Acceptable, FromTags, Lists, VersionFirst;
    var tags := Tags(rec);
    MarshalledIsAcceptable(rec);
    VersionFirstLists(tags);
    ParseOfRendering(VersionFirst(tags), PLAIN, tags);
    TagsOfParsed(tags);
  }

  /** Each field of a parsed record is the value of its wire tag, empty if there is none. */
  lemma ParsedFieldsAreTags(text: string)
    requires Parse(text).Some?
    ensures ReadTags(text).Some?
    ensures var rec, tags := Parse(text).value, MapOf(ReadTags(text).value);
            && rec.version == Get(tags, "v")
            && rec.governanceId == Get(tags, "gi")
            && rec.entityKeyUri == Get(tags, "ek")
            && rec.keyUri == Get(tags, "ku")
            && rec.logRef == Get(tags, "lr")
            && rec.statusUri == Get(tags, "su")
            && rec.signature == Get(tags, "sg")
            && Join(rec.flags, ',') == Get(tags, "fl")
            && (forall i | 0 <= i < |rec.flags| :: Free(rec.flags[i], ','))
            && rec.keyAge == Get(tags, "ka")
            && rec.capabilities == Get(tags, "cu")
            && (forall name | name in rec.unknownTags :: name in tags && rec.unknownTags[name] == tags[name])
            && rec.parsedTags == tags.Keys
  {
    hide ReadTags, MapOf, Split, Join;
    var tags := MapOf(ReadTags(text).value);
    JoinOfSplit(Get(tags, "fl"), ',');
    JoinNothing();
    SplitIsFree(Get(tags, "fl"), ',');
  }

  /** Each field of a record that is written is under its wire tag, if it is set or was parsed. */
  lemma WrittenFieldsAreTags(rec: Record)
    ensures var tags := Tags(rec);
            && Get(tags, "v") == rec.version
            && Get(tags, "gi") == rec.governanceId
            && Get(tags, "ek") == rec.entityKeyUri
            && Get(tags, "ku") == rec.keyUri
            && Get(tags, "lr") == rec.logRef
            && Get(tags, "su") == rec.statusUri
            && Get(tags, "sg") == rec.signature
            && Get(tags, "fl") == Join(rec.flags, ',')
            && Get(tags, "ka") == rec.keyAge
            && Get(tags, "cu") == rec.capabilities
  {
    hide Tags, Field, IsField, Get, Join;
    forall name | name in {"v", "gi", "ek", "ku", "lr", "su", "sg", "fl", "ka", "cu"}
      ensures Get(Tags(rec), name) == Field(rec, name)
    {
      NameIsField(name);
      FieldOfTags(rec, name);
    }
    FieldsByName(rec);
  }

  lemma NameIsField(name: string)
    requires name in {"v", "gi", "ek", "ku", "lr", "su", "sg", "fl", "ka", "cu"}
    ensures IsField(name)
  {
  }

  lemma FieldsByName(rec: Record)
    ensures Field(rec, "v") == rec.version && Field(rec, "gi") == rec.governanceId
    ensures Field(rec, "ek") == rec.entityKeyUri && Field(rec, "ku") == rec.keyUri
    ensures Field(rec, "lr") == rec.logRef && Field(rec, "su") == rec.statusUri
    ensures Field(rec, "sg") == rec.signature && Field(rec, "fl") == Join(rec.flags, ',')
    ensures Field(rec, "ka") == rec.keyAge && Field(rec, "cu") == rec.capabilities
  {
    hide Join;
  }

  /** A text that writes valid tags is accepted exactly if the version comes first and is a supported one, the
      required tags and the signature are there, and the key age is empty or allowed. */
  lemma TextIsAcceptedExactly(list: seq<Tag>, style: Style, tags: TagMap)
    requires Lists(list, tags) && list != []
    requires forall name | name in tags ::
               && name != "" && (forall i | 0 <= i < |name| ::
                    || 'a' <= name[i] <= 'z' || 'A' <= name[i] <= 'Z'
                    || (i > 0 && ('0' <= name[i] <= '9' || name[i] == '_')))
               && forall i | 0 <= i < |tags[name]| :: '!' <= tags[name][i] <= '~' && tags[name][i] != ';'
    ensures Parse(Render(list, style)).Some? <==>
              && list[0].name == "v" && (Get(tags, "v") == "dnsid-draft-01" || Get(tags, "v") == "DNSid1")
              && Get(tags, "gi") != "" && Get(tags, "ek") != "" && Get(tags, "ku") != "" && Get(tags, "lr") != ""
              && Get(tags, "su") != "" && Get(tags, "sg") != ""
              && Get(tags, "ka") in {"", "24h", "7d", "30d", "90d"}
  {
    hide Render, Parse, Lists, FromTags, Get;
    forall name | name in tags ensures ValidName(name) && ValidValue(tags[name]) {
    }
    ParseOfRendering(list, style, tags);
    AcceptableByName(tags);
  }

  lemma AcceptableByName(tags: TagMap)
    ensures Acceptable(tags) <==>
              && (Get(tags, "v") == "dnsid-draft-01" || Get(tags, "v") == "DNSid1")
              && Get(tags, "gi") != "" && Get(tags, "ek") != "" && Get(tags, "ku") != "" && Get(tags, "lr") != ""
              && Get(tags, "su") != "" && Get(tags, "ka") in {"", "24h", "7d", "30d", "90d"}
  {
    hide Get;
    assert forall name | name in REQUIRED :: name in {"gi", "ek", "ku", "lr", "su"};
    assert "gi" in REQUIRED && "ek" in REQUIRED && "ku" in REQUIRED && "lr" in REQUIRED && "su" in REQUIRED;
  }

  // ---------------------------------------------------------------------------------------------
  // What the signature covers

  /** An accepted text writes some list of its record's tags. */
  lemma AcceptedTextWrites(text: string) returns (list: seq<Tag>, style: Style)
    requires Parse(text).Some?
    ensures text == Render(list, style) && list != [] && list[0].name == "v"
    ensures Lists(list, Tags(Parse(text).value)) && ValidSyntax(Tags(Parse(text).value))
    ensures Parse(text).value == FromTags(Tags(Parse(text).value))
  {
    hide Render, ReadTags, Acceptable, FromTags, Lists, MapOf, Tags;
    list := ReadTags(text).value;
    style := ReadTextWasWritten(text);
    TagsOfParsed(MapOf(list));
    ListDetermines(list, MapOf(list));
    ListSyntax(list, MapOf(list));
  }

  lemma ListSyntax(list: seq<Tag>, tags: TagMap)
    requires Lists(list, tags) && ValidTags(list)
    ensures ValidSyntax(tags)
  {
    forall name | name in tags ensures ValidName(name) && ValidValue(tags[name]) {
      var i := NamedAt(list, name);
      assert ValidTag(list[i]);
    }
  }

  lemma SameTagsSameMap(list1: seq<Tag>, list2: seq<Tag>)
    requires DistinctNames(list1) && DistinctNames(list2) && forall tag :: tag in list1 <==> tag in list2
    ensures MapOf(list1) == MapOf(list2)
  {
    hide MapOf;
    var tags := MapOf(list1);
    ListDetermines(list1, tags);
    forall i | 0 <= i < |list2| ensures list2[i].name in tags && tags[list2[i].name] == list2[i].value {
      assert list2[i] in list1;
    }
    forall name | name in tags ensures HasName(list2, name) {
      var i := NamedAt(list1, name);
      assert list1[i] in list2;
    }
    ListDetermines(list2, tags);
  }

  /** Two texts that write the same tags, in any order that starts with the version, with any spaces and with or
      without a trailing semicolon, are parsed alike, so they have the same signing bytes. */
  lemma OrderAndStyleDoNotMatter(list1: seq<Tag>, style1: Style, list2: seq<Tag>, style2: Style)
    requires ValidTags(list1) && ValidTags(list2) && (forall tag :: tag in list1 <==> tag in list2)
    requires list1 != [] && list2 != [] && list1[0].name == "v" == list2[0].name
    ensures Parse(Render(list1, style1)) == Parse(Render(list2, style2))
  {
    hide Render, MapOf, Lists, Parse;
    SameTagsSameMap(list1, list2);
    var tags := MapOf(list1);
    ListDetermines(list1, tags);
    ListDetermines(list2, tags);
    ListSyntax(list1, tags);
    ParseOfRendering(list1, style1, tags);
    ParseOfRendering(list2, style2, tags);
  }

  lemma AlphabeticalIsNonempty(tags: TagMap)
    requires tags != map[]
    ensures Alphabetical(tags) != []
  {
    AlphabeticalLists(tags);
    var name :| name in tags;
    assert HasName(Alphabetical(tags), name);
  }

  /** The alphabetical text determines the tags. */
  lemma AlphabeticalTextBinds(a: TagMap, b: TagMap)
    requires ValidSyntax(a) && ValidSyntax(b) && a != map[] && b != map[]
    requires Render(Alphabetical(a), PLAIN) == Render(Alphabetical(b), PLAIN)
    ensures a == b
  {
    hide Render, Alphabetical, Lists, ReadTags, MapOf;
    AlphabeticalLists(a);
    AlphabeticalLists(b);
    ListsAreValid(Alphabetical(a), a);
    ListsAreValid(Alphabetical(b), b);
    AlphabeticalIsNonempty(a);
    AlphabeticalIsNonempty(b);
    RenderingReadsBack(Alphabetical(a), PLAIN);
    RenderingReadsBack(Alphabetical(b), PLAIN);
    ListDetermines(Alphabetical(a), a);
    ListDetermines(Alphabetical(b), b);
  }

  lemma AcceptableWithoutSignature(tags: TagMap)
    requires Acceptable(tags)
    ensures Acceptable(tags - {"sg"}) && "ek" in tags - {"sg"}
  {
    hide SupportedVersion;
    assert Get(tags, "ek") != "";
    forall name | name in REQUIRED + {"v", "ka"} ensures Get(tags - {"sg"}, name) == Get(tags, name) {
      assert name != "sg";
    }
  }

  lemma UnsignedTags(text: string)
    requires Parse(text).Some?
    ensures var tags := Tags(Parse(text).value) - {"sg"}; ValidSyntax(tags) && "ek" in tags && Acceptable(tags)
  {
    hide Render, Lists, Tags, FromTags, Acceptable, ReadTags, MapOf, ValidName, ValidValue;
    ghost var list, style := AcceptedTextWrites(text);
    TagsOfParsed(MapOf(ReadTags(text).value));
    AcceptableWithoutSignature(Tags(Parse(text).value));
  }

  lemma ParsedVersionIsSupported(tags: TagMap)
    requires Acceptable(tags)
    ensures SupportedVersion(FromTags(tags).version)
  {
  }

  lemma AcceptedVersionIsSupported(text: string)
    requires Parse(text).Some?
    ensures SupportedVersion(Parse(text).value.version)
  {
    hide ReadTags, MapOf, FromTags, Acceptable;
    ParsedVersionIsSupported(MapOf(ReadTags(text).value));
  }

  /** Signing bytes bind exactly the tags: for accepted texts they are equal exactly when the tags are, the
      signature apart. */
  lemma SigningBytesBindTags(text1: string, text2: string)
    requires Parse(text1).Some? && Parse(text2).Some?
    ensures CanonicalContent(Parse(text1).value) == CanonicalContent(Parse(text2).value) <==>
            Tags(Parse(text1).value) - {"sg"} == Tags(Parse(text2).value) - {"sg"}
  {
    hide Parse, Tags, Render, Alphabetical, Acceptable;
    var a, b := Tags(Parse(text1).value) - {"sg"}, Tags(Parse(text2).value) - {"sg"};
    UnsignedTags(text1);
    UnsignedTags(text2);
    AcceptedVersionIsSupported(text1);
    AcceptedVersionIsSupported(text2);
    if Render(Alphabetical(a), PLAIN) == Render(Alphabetical(b), PLAIN) {
      AlphabeticalTextBinds(a, b);
    }
  }

  // ---------------------------------------------------------------------------------------------
  // Unsigned canonical content

  /** Only fixpoints of re-serialization are accepted, and they hold no signature. */
  lemma UnsignedIsFixpoint(text: string)
    requires ParseUnsigned(text).Some?
    ensures var rec := ParseUnsigned(text).value;
            && CanonicalContent(rec) == text && "sg" !in Tags(rec)
            && rec == FromTags(Tags(rec)) && ValidSyntax(Tags(rec)) && Acceptable(Tags(rec))
  {
    hide Render, ReadTags, Acceptable, FromTags, MapOf, Tags, CanonicalContent, HasName, Split, Lists;
    var list := ReadTags(text).value;
    ghost var style := ReadTextWasWritten(text);
    TagsOfParsed(MapOf(list));
    MapOfList(list, "sg");
    ListDetermines(list, MapOf(list));
    ListSyntax(list, MapOf(list));
  }

  lemma FirstElement(list: seq<Tag>)
    requires ValidTags(list) && list != []
    ensures Split(Render(list, PLAIN), ';')[0] == ElementText(list[0])
    ensures ElementText(list[0]) <= Render(list, PLAIN)
  {
    hide Split;
    var pieces := Pieces(list, PLAIN);
    forall i | 0 <= i < |pieces| ensures Free(pieces[i], ';') {
      PiecesAreFree(list, PLAIN, i);
    }
    SplitOfJoin(pieces, ';');
  }

  lemma VersionPrefix(list: seq<Tag>)
    requires ValidTags(list) && list != [] && HasPrefix(Render(list, PLAIN), "v=")
    ensures list[0].name == "v" && TrimPrefix(ElementText(list[0]), "v=") == list[0].value
  {
    hide Render, Split;
    FirstElement(list);
    var text, name, element := Render(list, PLAIN), list[0].name, ElementText(list[0]);
    assert ValidTag(list[0]);
    assert |element| >= 2 && element[0] == text[0] == 'v' && element[1] == text[1] == '=';
    IndexIsFirst(element, '=', 1);
    IndexOfEquals(list[0]);
    assert name == element[..1] == ['v'];
  }

  /** The unsigned parser accepts the alphabetical text of all acceptable tags without a signature, and gives
      back their record. */
  lemma UnsignedAcceptsCanonical(tags: TagMap)
    requires ValidSyntax(tags) && Acceptable(tags) && "sg" !in tags
    ensures ParseUnsigned(Render(Alphabetical(tags), PLAIN)) == Some(FromTags(tags))
  {
    hide Render, ReadTags, FromTags, MapOf, Tags, HasName, Split, Lists, Alphabetical, ValidTags, TrimPrefix, HasPrefix;
    var list := Alphabetical(tags);
    var text := Render(list, PLAIN);
    AlphabeticalLists(tags);
    AlphabeticalIsNonempty(tags);
    ListsAreValid(list, tags);
    RenderingReadsBack(list, PLAIN);
    ListDetermines(list, tags);
    MapOfList(list, "sg");
    TagsOfParsed(tags);
    assert tags - {"sg"} == tags;
    ParsedVersionIsSupported(tags);
    if HasPrefix(text, "v=") {
      VersionPrefix(list);
      FirstElement(list);
      VersionOfList(list, tags);
    }
  }

  lemma VersionOfList(list: seq<Tag>, tags: TagMap)
    requires Lists(list, tags) && list != [] && list[0].name == "v"
    ensures Get(tags, "v") == list[0].value
  {
  }

  /** So the signing bytes of every accepted record parse back to its tags without the signature. */
  lemma SigningBytesParseBack(text: string)
    requires Parse(text).Some?
    ensures var rec := Parse(text).value;
            ParseUnsigned(CanonicalContent(rec)) == Some(FromTags(Tags(rec) - {"sg"}))
  {
    hide Parse, ParseUnsigned, Tags, FromTags, Render, Alphabetical, Acceptable, ValidSyntax;
    UnsignedTags(text);
    AcceptedVersionIsSupported(text);
    UnsignedAcceptsCanonical(Tags(Parse(text).value) - {"sg"});
  }

  // ---------------------------------------------------------------------------------------------
  // The loops

  method CheckRequired(tags: TagMap) returns (ok: bool)
    ensures ok <==> forall name | name in REQUIRED :: Get(tags, name) != ""
  {
    var names := ["ku", "su", "gi", "ek", "lr"];
    for i := 0 to |names|
      invariant forall j | 0 <= j < i :: Get(tags, names[j]) != ""
    {
      assert names[i] in REQUIRED;
      if Get(tags, names[i]) == "" {
        return false;
      }
    }
    forall name | name in REQUIRED ensures Get(tags, name) != "" {
      assert name in names;
    }
    ok := true;
  }

  /** Splits the text and collects its elements, refusing a second tag of the same name. */
  method CollectElements(text: string) returns (r: Option<(TagMap, seq<string>)>)
    ensures r.Some? <==> ReadTags(text).Some?
    ensures r.Some? ==>
              && r.value.0 == MapOf(ReadTags(text).value)
              && |r.value.1| == |ReadTags(text).value|
              && forall i | 0 <= i < |r.value.1| :: r.value.1[i] == ReadTags(text).value[i].name
  {
    hide ReadElement, Split, HasName, ReadPieces, MapOf;
    if text == "" {
      return None;
    }
    var pieces := Split(text, ';');
    var tags: TagMap, names: seq<string> := map[], [];
    ghost var list: seq<Tag> := [];
    NothingRead(pieces);
    var i := 0;
    while i < |pieces|
      invariant i <= |pieces|
      invariant ReadPieces(pieces, i) == Some(list) && tags == MapOf(list)
      invariant |names| == |list| && forall j | 0 <= j < |names| :: names[j] == list[j].name
    {
      var piece := pieces[i];
      i := i + 1;
      OnePieceRead(pieces, i);
      if piece == "" {
        if i == |pieces| {
          continue;
        }
        UnreadPrefix(pieces, i);
        return None;
      }
      var element := ReadElement(piece, i == 1);
      if element.None? {
        UnreadPrefix(pieces, i);
        return None;
      }
      MapOfList(list, element.value.name);
      if element.value.name in tags {
        UnreadPrefix(pieces, i);
        return None;
      }
      MapOfOneMore(list, element.value);
      list := list + [element.value];
      tags := tags[element.value.name := element.value.value];
      names := names + [element.value.name];
    }
    r := Some((tags, names));
  }

  lemma NothingRead(pieces: seq<string>)
    ensures ReadPieces(pieces, 0) == Some([]) && MapOf([]) == map[]
  {
  }

  lemma OnePieceRead(pieces: seq<string>, n: nat)
    requires 0 < n <= |pieces| && ReadPieces(pieces, n - 1).Some?
    ensures var list, element := ReadPieces(pieces, n - 1).value, ReadElement(pieces[n - 1], n == 1);
            ReadPieces(pieces, n) ==
            if pieces[n - 1] == "" then if n == |pieces| then Some(list) else None
            else if element.None? || HasName(list, element.value.name) then None
            else Some(list + [element.value])
  {
    hide ReadElement, HasName;
  }

  lemma {:induction false} UnreadPrefix(pieces: seq<string>, n: nat)
    requires n <= |pieces| && ReadPieces(pieces, n).None?
    ensures ReadPieces(pieces, |pieces|).None?
    decreases |pieces| - n
  {
    hide ReadElement;
    if n < |pieces| {
      UnreadPrefix(pieces, n + 1);
    }
  }

  lemma MapOfOneMore(list: seq<Tag>, tag: Tag)
    ensures MapOf(list + [tag]) == MapOf(list)[tag.name := tag.value]
  {
    assert (list + [tag])[..|list|] == list;
  }

  method ParseTXTRecord(text: string) returns (r: Option<Record>)
    ensures r == Parse(text)
  {
    hide ReadTags, MapOf;
    var elements := CollectElements(text);
    if elements.None? {
      return None;
    }
    var (tags, names) := elements.value;
    if |names| == 0 || names[0] != "v" || !SupportedVersion(Get(tags, "v")) {
      return None;
    }
    var complete := CheckRequired(tags);
    if !complete || Get(tags, "sg") == "" {
      return None;
    }
    if Get(tags, "ka") != "" && Get(tags, "ka") !in KEY_AGES {
      return None;
    }
    r := Some(FromTags(tags));
  }

  /** Writes the tags in the order of the names. */
  method Serialize(names: seq<string>, tags: TagMap) returns (text: string)
    requires forall i | 0 <= i < |names| :: names[i] in tags
    ensures text == Render(Listed(names, tags), PLAIN)
  {
    var parts: seq<string> := [];
    for i := 0 to |names|
      invariant parts == Pieces(Listed(names, tags), PLAIN)[..i]
    {
      parts := parts + [names[i] + "=" + tags[names[i]]];
    }
    assert parts == Pieces(Listed(names, tags), PLAIN);
    text := Join(parts, ';');
  }

  method SerializeAlphabetical(tags: TagMap) returns (text: string)
    ensures text == Render(Alphabetical(tags), PLAIN)
  {
    hide Render;
    Utf8Orders();
    var names := SortKeys(Utf8, tags.Keys);
    assert names == SortedNames(tags.Keys);
    assert forall i | 0 <= i < |names| :: names[i] in names;
    text := Serialize(names, tags);
  }

  method SerializeVersionFirst(tags: TagMap) returns (text: string)
    ensures text == Render(VersionFirst(tags), PLAIN)
  {
    hide Render;
    Utf8Orders();
    var rest := SortKeys(Utf8, tags.Keys - {"v"});
    assert rest == SortedNames(tags.Keys - {"v"});
    assert forall i | 0 <= i < |rest| :: rest[i] in rest;
    var names := (if "v" in tags then ["v"] else []) + rest;
    assert Listed(names, tags) == VersionFirst(tags);
    text := Serialize(names, tags);
  }

  method CanonicalText(rec: Record) returns (text: string)
    ensures text == CanonicalContent(rec)
  {
    hide Tags, Render, Alphabetical, VersionFirst;
    var tags := CollectTags(rec);
    tags := tags - {"sg"};
    if SupportedVersion(rec.version) {
      text := SerializeAlphabetical(tags);
    } else {
      text := SerializeVersionFirst(tags);
    }
  }

  method MarshalTXT(rec: Record) returns (r: Option<string>)
    ensures r == Marshal(rec)
  {
    hide Tags, Render, VersionFirst;
    if !SupportedVersion(rec.version) || rec.signature == "" {
      return None;
    }
    if !(forall name | name in REQUIRED :: Field(rec, name) != "") {
      return None;
    }
    var tags := CollectTags(rec);
    if !(forall name | name in tags :: ValidName(name) && ValidValue(tags[name])) {
      return None;
    }
    var text := SerializeVersionFirst(tags);
    r := Some(text);
  }
}
