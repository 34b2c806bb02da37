/** Stored log entries and the bytes their signatures cover (`log/c2sptlog/event.go`). */
module EventEntry {
  import opened Wrappers
  import opened Unicode
  import opened JsonReader
  import opened CanonicalJson

  const MAX_ENTRY_SIZE: nat := 65535

  /** The outside JSON decoder: bytes to the members of an object. Nothing is asked of it. */
  type Decoder = seq<nat> -> Option<map<string, Value>>

  const SIGNATURE_ROLES := {"ae", "op", "prev_op", "new_op"}

  predicate SignatureShape(v: Value) {
    v.Obj? && forall k | k in v.members :: k in {"kid", "sig"} && v.members[k].Str?
  }

  predicate SignaturesShape(v: Value) {
    v.Obj? && forall k | k in v.members :: k in SIGNATURE_ROLES && SignatureShape(v.members[k])
  }

  predicate ValidPayload(members: map<string, Value>) {
    "sigs" in members ==> SignaturesShape(members["sigs"])
  }

  /** The canonical bytes of a value. */
  ghost function CanonicalBytes(v: Value): seq<nat> {
    Utf8(Text(v))
  }

  /** Encodes a value; integers that were not decoded from an entry have to be in the safe range. */
  method CanonicalJSON(v: Value, decoded: bool) returns (r: Option<seq<nat>>)
    ensures r == if decoded || Supported(v) then Some(CanonicalBytes(v)) else None
  {
    if !decoded && !Supported(v) {
      return None;
    }
    var buf := new Buffer();
    buf.WriteValue(v);
    assert buf.text == Text(v);
    r := Some(Utf8(buf.text));
  }

  /** The payload of an entry: what the decoder gives, if it is valid and the entry is its canonical form. */
  ghost function Payload(decode: Decoder, entry: seq<nat>): Option<map<string, Value>> {
    if entry == [] || |entry| > MAX_ENTRY_SIZE then None
    else
      match decode(entry)
      case None => None
      case Some(members) =>
        if ValidPayload(members) && CanonicalBytes(Obj(members)) == entry then Some(members) else None
  }

  method PayloadFromEntry(decode: Decoder, entry: seq<nat>) returns (r: Option<map<string, Value>>)
    ensures r == Payload(decode, entry)
  {
    if |entry| == 0 || |entry| > MAX_ENTRY_SIZE {
      return None;
    }
    var members := decode(entry);
    if members.None? || !ValidPayload(members.value) {
      return None;
    }
    var canonical := CanonicalJSON(Obj(members.value), true);
    if canonical != Some(entry) {
      return None;
    }
    r := members;
  }

  /** The payload without its signatures. */
  function Unsigned(members: map<string, Value>): map<string, Value> {
    members - {"sigs"}
  }

  /** The bytes that the signatures of an entry cover. */
  ghost function SignedBytes(decode: Decoder, entry: seq<nat>): Option<seq<nat>> {
    match Payload(decode, entry)
    case None => None
    case Some(members) => Some(CanonicalBytes(Obj(Unsigned(members))))
  }

  method CanonicalFromEntry(decode: Decoder, entry: seq<nat>) returns (r: Option<seq<nat>>)
    ensures r == SignedBytes(decode, entry)
  {
    var members := PayloadFromEntry(decode, entry);
    if members.None? {
      return None;
    }
    var payload := members.value - {"sigs"};
    r := CanonicalJSON(Obj(payload), true);
  }

  /** Two payloads have the same members apart from the signatures. */
  ghost predicate SameButSignatures(a: map<string, Value>, b: map<string, Value>) {
    forall k | k != "sigs" :: (k in a <==> k in b) && (k in a && k in b ==> a[k] == b[k])
  }

  /** Equal canonical bytes mean equal values. */
  lemma CanonicalBytesAreInjective(v: Value, w: Value)
    requires CanonicalBytes(v) == CanonicalBytes(w)
    ensures v == w
  {
    hide Text;
    Utf8IsInjective(Text(v), Text(w));
    TextIsInjective(v, w);
  }

  lemma UnsignedAgree(a: map<string, Value>, b: map<string, Value>)
    ensures Unsigned(a) == Unsigned(b) <==> SameButSignatures(a, b)
  {
    var x, y := Unsigned(a), Unsigned(b);
    if x == y {
      forall k | k != "sigs" ensures (k in a <==> k in b) && (k in a && k in b ==> a[k] == b[k]) {
        assert k in a <==> k in x;
        assert k in b <==> k in y;
        assert k in x ==> x[k] == y[k];
      }
    }
    if SameButSignatures(a, b) {
      assert x.Keys == y.Keys;
    }
  }

  /** Accepted entries have equal signed bytes exactly when their payloads agree on every member except the
      signatures, whatever the decoders do. */
  lemma SignedBytesBindPayload(decode1: Decoder, entry1: seq<nat>, decode2: Decoder, entry2: seq<nat>)
    requires Payload(decode1, entry1).Some? && Payload(decode2, entry2).Some?
    ensures SignedBytes(decode1, entry1).Some?
    ensures SignedBytes(decode1, entry1) == SignedBytes(decode2, entry2) <==>
            SameButSignatures(Payload(decode1, entry1).value, Payload(decode2, entry2).value)
  {
    hide Text, ValidPayload, SameButSignatures, Utf8;
    var a, b := Payload(decode1, entry1).value, Payload(decode2, entry2).value;
    UnsignedAgree(a, b);
    if SignedBytes(decode1, entry1) == SignedBytes(decode2, entry2) {
      CanonicalBytesAreInjective(Obj(Unsigned(a)), Obj(Unsigned(b)));
    }
  }

  /** Acceptance does not depend on the decoder: an entry accepted through two decoders has one payload. */
  lemma PayloadIsDetermined(decode1: Decoder, decode2: Decoder, entry: seq<nat>)
    requires Payload(decode1, entry).Some? && Payload(decode2, entry).Some?
    ensures Payload(decode1, entry) == Payload(decode2, entry)
  {
    hide Text, ValidPayload, Utf8;
    CanonicalBytesAreInjective(Obj(Payload(decode1, entry).value), Obj(Payload(decode2, entry).value));
  }

  /** Every entry of the right size that is the canonical form of what it decodes to is accepted, if its
      signatures are objects of two strings under the four roles. */
  lemma CanonicalEntriesAreAccepted(decode: Decoder, members: map<string, Value>)
    requires var entry := Utf8(Text(Obj(members))); |entry| <= 65535 && decode(entry) == Some(members)
    requires "sigs" in members ==>
               && members["sigs"].Obj?
               && forall role | role in members["sigs"].members ::
                    && role in {"ae", "op", "prev_op", "new_op"}
                    && members["sigs"].members[role].Obj?
                    && forall k | k in members["sigs"].members[role].members ::
                         (k == "kid" || k == "sig") && members["sigs"].members[role].members[k].Str?
    ensures Payload(decode, Utf8(Text(Obj(members)))) == Some(members)
  {
    hide Text;
    EntryIsNotEmpty(Obj(members));
  }

  lemma EntryIsNotEmpty(v: Value)
    ensures Utf8(Text(v)) != []
  {
    TextStart(v);
    OctetsIsPrefixCode();
    EncodeIsEmpty(Octets, Text(v));
  }

  /** And nothing else is accepted. */
  lemma AcceptedEntriesAreCanonical(decode: Decoder, entry: seq<nat>, role: string, k: string)
    requires Payload(decode, entry).Some?
    ensures var members := Payload(decode, entry).value;
            && 0 < |entry| <= 65535 && entry == Utf8(Text(Obj(members))) && decode(entry) == Some(members)
            && ("sigs" in members ==> members["sigs"].Obj?)
            && ("sigs" in members && role in members["sigs"].members ==>
                  role in {"ae", "op", "prev_op", "new_op"} && members["sigs"].members[role].Obj?)
            && ("sigs" in members && role in members["sigs"].members
                && k in members["sigs"].members[role].members ==>
                  (k == "kid" || k == "sig") && members["sigs"].members[role].members[k].Str?)
  {
    hide Text;
  }

  // ---------------------------------------------------------------------------------------------
  // Event identity

  const EVENT_DOMAIN := "dnsid-c2sp-event-v1" + [0 as char]

  /** What the event identifier hashes. */
  function EventPreimage(signed: seq<nat>): seq<nat> {
    Utf8(EVENT_DOMAIN) + signed
  }

  function EventID(hash: seq<nat> -> seq<nat>, signed: seq<nat>): seq<nat> {
    hash(EventPreimage(signed))
  }

  /** Where the hash does not collide, two accepted entries are the same logical event exactly when they agree
      on every member except the signatures. */
  lemma EventIDsIdentifyPayloads(hash: seq<nat> -> seq<nat>, decode: Decoder, entry1: seq<nat>, entry2: seq<nat>)
    requires Payload(decode, entry1).Some? && Payload(decode, entry2).Some?
    requires SignedBytes(decode, entry1).Some? && SignedBytes(decode, entry2).Some?
    requires var p, q := EventPreimage(SignedBytes(decode, entry1).value),
        EventPreimage(SignedBytes(decode, entry2).value);
             hash(p) == hash(q) ==> p == q
    ensures EventID(hash, SignedBytes(decode, entry1).value) == EventID(hash, SignedBytes(decode, entry2).value) <==>
            SameButSignatures(Payload(decode, entry1).value, Payload(decode, entry2).value)
  {
    hide Payload, SignedBytes, SameButSignatures;
    var s, t := SignedBytes(decode, entry1).value, SignedBytes(decode, entry2).value;
    var prefix := Utf8(EVENT_DOMAIN);
    assert s == (prefix + s)[|prefix|..] && t == (prefix + t)[|prefix|..];
    SignedBytesBindPayload(decode, entry1, decode, entry2);
  }
}
