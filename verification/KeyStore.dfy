/** The file-backed key store (`keyprovider.go`). Key material is an opaque number; a key read back from the
    file has the kid and material it was written with. */
module KeyStore {
  import opened Wrappers

  datatype KeyState = Active | Retained | Pending

  datatype Entry = Entry(material: nat, state: KeyState)

  datatype Key = Key(kid: string, material: nat)

  datatype Provider = Provider(keys: map<string, Entry>, order: seq<string>, activeKid: string)

  /** The current file shape, and the older one that holds a single key. */
  datatype StoreFile = Store(active: Key, retained: seq<Key>, pending: seq<Key>) | Flat(key: Key)

  /** What became of a write: it was published, it failed before publication and left the file alone, or the
      new file is visible but not known to be durable. */
  datatype Outcome = Published | Failed | NotDurable

  /** The keys of one state, in order. */
  function Select(keys: map<string, Entry>, order: seq<string>, state: KeyState): seq<Key>
    decreases |order|
  {
    if order == [] then []
    else
      var init, kid := order[..|order| - 1], order[|order| - 1];
      Select(keys, init, state) + if kid in keys && keys[kid].state == state then [Key(kid, keys[kid].material)] else []
  }

  function Listing(p: Provider, state: KeyState): seq<Key> {
    Select(p.keys, p.order, state)
  }

  /** The order lists every key once, and exactly the entry at the active kid is active. */
  ghost predicate Inv(p: Provider) {
    && (forall i, j | 0 <= i < j < |p.order| :: p.order[i] != p.order[j])
    && (forall kid :: kid in p.order <==> kid in p.keys)
    && p.activeKid in p.keys
    && forall kid | kid in p.keys :: p.keys[kid].state == Active <==> kid == p.activeKid
  }

  function FileOf(p: Provider): StoreFile
    requires p.activeKid in p.keys
  {
    Store(Key(p.activeKid, p.keys[p.activeKid].material), Listing(p, Retained), Listing(p, Pending))
  }

  // ---------------------------------------------------------------------------------------------
  // Loading

  const NO_KEYS := Provider(map[], [], "")

  function Add(p: Provider, key: Key, state: KeyState): Option<Provider> {
    if key.kid in p.keys then None
    else Some(Provider(p.keys[key.kid := Entry(key.material, state)], p.order + [key.kid],
                       if state == Active then key.kid else p.activeKid))
  }

  /** Adds the first `n` keys of a list. */
  function AddAll(p: Provider, keys: seq<Key>, state: KeyState, n: nat): Option<Provider>
    requires n <= |keys|
    decreases n
  {
    if n == 0 then Some(p)
    else
      match AddAll(p, keys, state, n - 1)
      case None => None
      case Some(q) => Add(q, keys[n - 1], state)
  }

  function Load(file: StoreFile): Option<Provider> {
    match file
    case Flat(key) => Add(NO_KEYS, key, Active)
    case Store(active, retained, pending) =>
      match Add(NO_KEYS, active, Active)
      case None => None
      case Some(p) =>
        match AddAll(p, retained, Retained, |retained|)
        case None => None
        case Some(q) => AddAll(q, pending, Pending, |pending|)
  }

  /** The same keys with the same roles, listed in the same order within each role. */
  ghost predicate SameKeys(p: Provider, q: Provider) {
    && p.keys == q.keys && p.activeKid == q.activeKid
    && Listing(p, Retained) == Listing(q, Retained) && Listing(p, Pending) == Listing(q, Pending)
  }

  function Kids(keys: seq<Key>): (kids: seq<string>)
    ensures |kids| == |keys| && forall i | 0 <= i < |kids| :: kids[i] == keys[i].kid
  {
    seq(|keys|, i requires 0 <= i < |keys| => keys[i].kid)
  }

  ghost predicate HasState(keys: map<string, Entry>, kid: string, state: KeyState) {
    kid in keys && keys[kid].state == state
  }

  ghost predicate AllHave(keys: map<string, Entry>, s: seq<Key>, state: KeyState) {
    forall i | 0 <= i < |s| :: s[i].kid in keys && keys[s[i].kid] == Entry(s[i].material, state)
  }

  lemma {:induction false} SelectedFromOrder(keys: map<string, Entry>, order: seq<string>, state: KeyState, i: nat)
    requires i < |Select(keys, order, state)|
    ensures var key := Select(keys, order, state)[i];
            key.kid in order && key.kid in keys && keys[key.kid] == Entry(key.material, state)
    decreases |order|
  {
    var init, kid := order[..|order| - 1], order[|order| - 1];
    assert order == init + [kid];
    if i < |Select(keys, init, state)| {
      SelectedFromOrder(keys, init, state, i);
    }
  }

  lemma {:induction false} SelectedOnce(keys: map<string, Entry>, order: seq<string>, state: KeyState, i: nat, j: nat)
    requires forall i, j | 0 <= i < j < |order| :: order[i] != order[j]
    requires i < j < |Select(keys, order, state)|
    ensures Select(keys, order, state)[i].kid != Select(keys, order, state)[j].kid
    decreases |order|
  {
    var init, kid := order[..|order| - 1], order[|order| - 1];
    assert forall k | k in init :: k != kid;
    if j < |Select(keys, init, state)| {
      SelectedOnce(keys, init, state, i, j);
    } else {
      SelectedFromOrder(keys, init, state, i);
    }
  }

  lemma {:induction false} EverySelected(keys: map<string, Entry>, order: seq<string>, state: KeyState, kid: string)
    requires kid in order && HasState(keys, kid, state)
    ensures kid in Kids(Select(keys, order, state))
    decreases |order|
  {
    var init, last := order[..|order| - 1], order[|order| - 1];
    var before, s := Select(keys, init, state), Select(keys, order, state);
    if kid == last {
      assert Kids(s)[|s| - 1] == kid;
    } else {
      assert order == init + [last];
      EverySelected(keys, init, state, kid);
      var i :| 0 <= i < |before| && Kids(before)[i] == kid;
      assert Kids(s)[i] == kid;
    }
  }

  lemma Selected(keys: map<string, Entry>, order: seq<string>, state: KeyState)
    requires forall i, j | 0 <= i < j < |order| :: order[i] != order[j]
    ensures var s := Select(keys, order, state);
            && (forall i | 0 <= i < |s| ::
                  s[i].kid in order && s[i].kid in keys && keys[s[i].kid] == Entry(s[i].material, state))
            && (forall i, j | 0 <= i < j < |s| :: s[i].kid != s[j].kid)
            && (forall kid | kid in order && HasState(keys, kid, state) :: kid in Kids(s))
  {
    hide *;
    var s := Select(keys, order, state);
    forall i | 0 <= i < |s|
      ensures s[i].kid in order && s[i].kid in keys && keys[s[i].kid] == Entry(s[i].material, state)
    {
      SelectedFromOrder(keys, order, state, i);
    }
    forall i, j | 0 <= i < j < |s| ensures s[i].kid != s[j].kid {
      SelectedOnce(keys, order, state, i, j);
    }
    forall kid | kid in order && HasState(keys, kid, state) ensures kid in Kids(s) {
      EverySelected(keys, order, state, kid);
    }
  }

  lemma {:induction false} SelectOfConcat(keys: map<string, Entry>, a: seq<string>, b: seq<string>, state: KeyState)
    ensures Select(keys, a + b, state) == Select(keys, a, state) + Select(keys, b, state)
    decreases |b|
  {
    if b == [] {
      assert a + b == a;
    } else {
      var init := b[..|b| - 1];
      SelectOfConcat(keys, a, init, state);
      assert (a + b)[..|a + b| - 1] == a + init;
    }
  }

  /** Selecting again from what was selected gives the same keys, or none of another state. */
  lemma {:induction false} SelectAgain(keys: map<string, Entry>, s: seq<Key>, state: KeyState, other: KeyState)
    requires AllHave(keys, s, state)
    ensures Select(keys, Kids(s), other) == if other == state then s else []
    decreases |s|
  {
    if s != [] {
      var init := s[..|s| - 1];
      SelectAgain(keys, init, state, other);
      assert Kids(s)[..|s| - 1] == Kids(init);
      assert s == init + [s[|s| - 1]];
    }
  }

  /** A provider under reconstruction holds the entries of `p` for the kids it lists. */
  ghost predicate PartOf(q: Provider, p: Provider) {
    && (forall kid :: kid in q.keys <==> kid in q.order)
    && forall kid | kid in q.keys :: kid in p.keys && q.keys[kid] == p.keys[kid]
  }

  lemma AddOne(p: Provider, q: Provider, key: Key, state: KeyState)
    requires PartOf(q, p) && key.kid !in q.order && key.kid in p.keys && p.keys[key.kid] == Entry(key.material, state)
    ensures var r := Add(q, key, state); r.Some? && PartOf(r.value, p) && r.value.order == q.order + [key.kid]
  {
  }

  /** The next key of a listing is not there yet. */
  lemma NextIsNew(p: Provider, q: Provider, state: KeyState, n: nat)
    requires Inv(p) && PartOf(q, p) && n < |Listing(p, state)|
    requires forall kid | kid in q.order :: kid in q.keys && q.keys[kid].state != state
    ensures var kid := Listing(p, state)[n].kid;
            && kid in p.keys && p.keys[kid] == Entry(Listing(p, state)[n].material, state)
            && kid !in q.order + Kids(Listing(p, state)[..n])
  {
    hide Select;
    Selected(p.keys, p.order, state);
    var s := Listing(p, state);
    forall k | k in Kids(s[..n]) ensures k != s[n].kid {
      var i :| 0 <= i < n && Kids(s[..n])[i] == k;
      assert s[i].kid == k;
    }
  }

  lemma {:induction false} AddSelected(p: Provider, q: Provider, state: KeyState, n: nat)
    requires Inv(p) && PartOf(q, p) && state != Active && n <= |Listing(p, state)|
    requires forall kid | kid in q.order :: kid in q.keys && q.keys[kid].state != state
    ensures var r := AddAll(q, Listing(p, state), state, n);
            && r.Some? && PartOf(r.value, p) && r.value.activeKid == q.activeKid
            && r.value.order == q.order + Kids(Listing(p, state)[..n])
    decreases n
  {
    hide Select, Inv, PartOf;
    var s := Listing(p, state);
    if n > 0 {
      AddSelected(p, q, state, n - 1);
      NextIsNew(p, q, state, n - 1);
      AddOne(p, AddAll(q, s, state, n - 1).value, s[n - 1], state);
      assert Kids(s[..n]) == Kids(s[..n - 1]) + [s[n - 1].kid];
      assert q.order + Kids(s[..n - 1]) + [s[n - 1].kid] == q.order + Kids(s[..n]);
    } else {
      assert q.order + Kids(s[..0]) == q.order;
    }
  }

  lemma StatesOfKids(p: Provider, q: Provider, state: KeyState)
    requires Inv(p) && PartOf(q, p) && q.order == [p.activeKid] + Kids(Listing(p, state))
    ensures forall kid | kid in q.order :: kid in q.keys && q.keys[kid].state in {Active, state}
  {
    hide Listing;
    ListingHas(p, state);
    forall kid | kid in q.order ensures kid in q.keys && q.keys[kid].state in {Active, state} {
      var i :| 0 <= i < |q.order| && q.order[i] == kid;
      assert i > 0 ==> kid == Listing(p, state)[i - 1].kid;
    }
  }

  /** A file written from memory loads to the same active key, retained list and pending list. */
  lemma LoadOfFile(p: Provider)
    requires Inv(p)
    ensures Load(FileOf(p)).Some?
    ensures Inv(Load(FileOf(p)).value) && SameKeys(Load(FileOf(p)).value, p)
  {
    hide Select, AddAll, PartOf, SameKeys;
    var retained, pending := Listing(p, Retained), Listing(p, Pending);
    assert retained[..|retained|] == retained && pending[..|pending|] == pending;
    var q := Add(NO_KEYS, Key(p.activeKid, p.keys[p.activeKid].material), Active).value;
    NothingIsPart(p);
    AddOne(p, NO_KEYS, Key(p.activeKid, p.keys[p.activeKid].material), Active);
    AddSelected(p, q, Retained, |retained|);
    var r := AddAll(q, retained, Retained, |retained|).value;
    StatesOfKids(p, r, Retained);
    AddSelected(p, r, Pending, |pending|);
    var last := AddAll(r, pending, Pending, |pending|).value;
    AllKeysAreLoaded(p, last);
    LoadedLists(p, last);
    LoadedInv(p, last);
  }

  lemma NothingIsPart(p: Provider)
    ensures PartOf(NO_KEYS, p)
  {
  }

  lemma KeyIsListed(p: Provider, kid: string)
    requires Inv(p) && kid in p.keys
    ensures kid in [p.activeKid] + Kids(Listing(p, Retained)) + Kids(Listing(p, Pending))
  {
    hide Select;
    Selected(p.keys, p.order, Retained);
    Selected(p.keys, p.order, Pending);
    assert HasState(p.keys, kid, Retained) || HasState(p.keys, kid, Pending) || kid == p.activeKid;
  }

  lemma AllKeysAreLoaded(p: Provider, q: Provider)
    requires Inv(p) && PartOf(q, p) && q.order == [p.activeKid] + Kids(Listing(p, Retained)) + Kids(Listing(p, Pending))
    ensures q.keys == p.keys
  {
    hide Select, Inv;
    forall kid | kid in p.keys ensures kid in q.keys {
      KeyIsListed(p, kid);
    }
  }

  lemma ListingHas(p: Provider, state: KeyState)
    requires Inv(p)
    ensures AllHave(p.keys, Listing(p, state), state)
    ensures forall i, j | 0 <= i < j < |Listing(p, state)| :: Listing(p, state)[i].kid != Listing(p, state)[j].kid
  {
    hide Select;
    Selected(p.keys, p.order, state);
  }

  lemma LoadedLists(p: Provider, q: Provider)
    requires Inv(p) && q.keys == p.keys && q.activeKid == p.activeKid
    requires q.order == [p.activeKid] + Kids(Listing(p, Retained)) + Kids(Listing(p, Pending))
    ensures SameKeys(q, p)
  {
    hide Select, Kids, AllHave;
    var keys, retained, pending := p.keys, Listing(p, Retained), Listing(p, Pending);
    ListingHas(p, Retained);
    ListingHas(p, Pending);
    ActiveAlone(keys, p.activeKid);
    forall state | state in {Retained, Pending} ensures Select(keys, q.order, state) == Listing(p, state) {
      SelectOfConcat(keys, [p.activeKid] + Kids(retained), Kids(pending), state);
      SelectOfConcat(keys, [p.activeKid], Kids(retained), state);
      SelectAgain(keys, retained, Retained, state);
      SelectAgain(keys, pending, Pending, state);
    }
  }

  lemma LoadedInv(p: Provider, q: Provider)
    requires Inv(p) && PartOf(q, p) && q.keys == p.keys && q.activeKid == p.activeKid
    requires q.order == [p.activeKid] + Kids(Listing(p, Retained)) + Kids(Listing(p, Pending))
    ensures Inv(q)
  {
    hide Select, AllHave, Listing;
    ListingHas(p, Retained);
    ListingHas(p, Pending);
    forall i, j | 0 <= i < j < |q.order| ensures q.order[i] != q.order[j] {
      LoadedStates(p.keys, p.activeKid, Listing(p, Retained), Listing(p, Pending), i);
      LoadedStates(p.keys, p.activeKid, Listing(p, Retained), Listing(p, Pending), j);
    }
  }

  lemma ActiveAlone(keys: map<string, Entry>, kid: string)
    requires kid in keys && keys[kid].state == Active
    ensures Select(keys, [kid], Retained) == [] && Select(keys, [kid], Pending) == []
  {
  }

  /** Which part of a loaded order a position is in. */
  lemma LoadedStates(keys: map<string, Entry>, activeKid: string, retained: seq<Key>, pending: seq<Key>, i: nat)
    requires activeKid in keys && keys[activeKid].state == Active
    requires AllHave(keys, retained, Retained) && AllHave(keys, pending, Pending)
    requires i < 1 + |retained| + |pending|
    ensures var order := [activeKid] + Kids(retained) + Kids(pending);
            && order[i] in keys
            && order[i] == (if i == 0 then activeKid else if i <= |retained| then retained[i - 1].kid
                            else pending[i - 1 - |retained|].kid)
            && keys[order[i]].state == if i == 0 then Active else if i <= |retained| then Retained else Pending
  {
  }

  lemma AddKeepsInv(p: Provider, key: Key, state: KeyState)
    requires Inv(p) && state != Active && Add(p, key, state).Some?
    ensures Inv(Add(p, key, state).value)
  {
  }

  lemma {:induction false} AddAllKeepsInv(p: Provider, keys: seq<Key>, state: KeyState, n: nat)
    requires Inv(p) && state != Active && n <= |keys| && AddAll(p, keys, state, n).Some?
    ensures Inv(AddAll(p, keys, state, n).value)
    decreases n
  {
    hide Inv;
    if n > 0 {
      AddAllKeepsInv(p, keys, state, n - 1);
      AddKeepsInv(AddAll(p, keys, state, n - 1).value, keys[n - 1], state);
    }
  }

  /** Whatever file is accepted, the loaded provider lists every key once and has one active key. */
  lemma LoadedFilesAreSound(file: StoreFile)
    requires Load(file).Some?
    ensures Inv(Load(file).value)
  {
    hide AddAll;
    match file
    case Flat(key) =>
    case Store(active, retained, pending) =>
      var p := Add(NO_KEYS, active, Active).value;
      AddAllKeepsInv(p, retained, Retained, |retained|);
      AddAllKeepsInv(AddAll(p, retained, Retained, |retained|).value, pending, Pending, |pending|);
  }

  lemma {:induction false} AddAllKeeps(p: Provider, keys: seq<Key>, state: KeyState, n: nat, kid: string)
    requires n <= |keys| && AddAll(p, keys, state, n).Some?
    ensures var r := AddAll(p, keys, state, n).value;
            && (kid in r.keys <==> kid in p.keys || exists i | 0 <= i < n :: keys[i].kid == kid)
            && (kid in p.keys ==> r.keys[kid] == p.keys[kid])
            && (state != Active ==> r.activeKid == p.activeKid)
    decreases n
  {
    if n > 0 {
      AddAllKeeps(p, keys, state, n - 1, kid);
    }
  }

  lemma {:induction false} AddAllAdds(p: Provider, keys: seq<Key>, state: KeyState, n: nat, i: nat)
    requires i < n <= |keys| && AddAll(p, keys, state, n).Some?
    ensures var r := AddAll(p, keys, state, n).value;
            keys[i].kid in r.keys && r.keys[keys[i].kid] == Entry(keys[i].material, state)
    decreases n
  {
    if i < n - 1 {
      AddAllAdds(p, keys, state, n - 1, i);
    }
  }

  lemma {:induction false} AddAllOrders(p: Provider, keys: seq<Key>, state: KeyState, n: nat)
    requires n <= |keys| && AddAll(p, keys, state, n).Some?
    ensures AddAll(p, keys, state, n).value.order == p.order + Kids(keys[..n])
    decreases n
  {
    if n == 0 {
      assert p.order + Kids(keys[..0]) == p.order;
    } else {
      AddAllOrders(p, keys, state, n - 1);
      assert Kids(keys[..n]) == Kids(keys[..n - 1]) + [keys[n - 1].kid];
    }
  }

  /** Adding keys succeeds exactly if their kids are new and differ. */
  lemma {:induction false} AddAllSucceeds(p: Provider, keys: seq<Key>, state: KeyState, n: nat)
    requires n <= |keys|
    ensures AddAll(p, keys, state, n).Some? <==>
              && (forall i | 0 <= i < n :: keys[i].kid !in p.keys)
              && forall i, j | 0 <= i < j < n :: keys[i].kid != keys[j].kid
    decreases n
  {
    if n > 0 {
      AddAllSucceeds(p, keys, state, n - 1);
      if AddAll(p, keys, state, n - 1).Some? {
        AddAllKeeps(p, keys, state, n - 1, keys[n - 1].kid);
      }
    }
  }

  /** What a loaded file means: its parts become the active key, the retained keys and the pending ones. */
  lemma LoadMeans(active: Key, retained: seq<Key>, pending: seq<Key>)
    requires Load(Store(active, retained, pending)).Some?
    ensures var p := Load(Store(active, retained, pending)).value;
            && p.activeKid == active.kid
            && p.order == [active.kid] + Kids(retained) + Kids(pending)
            && active.kid in p.keys && p.keys[active.kid] == Entry(active.material, Active)
            && (forall i | 0 <= i < |retained| ::
                  retained[i].kid in p.keys && p.keys[retained[i].kid] == Entry(retained[i].material, Retained))
            && (forall i | 0 <= i < |pending| ::
                  pending[i].kid in p.keys && p.keys[pending[i].kid] == Entry(pending[i].material, Pending))
  {
    hide AddAll, Kids;
    var p := Add(NO_KEYS, active, Active).value;
    var q := AddAll(p, retained, Retained, |retained|).value;
    var r := AddAll(q, pending, Pending, |pending|).value;
    assert retained[..|retained|] == retained && pending[..|pending|] == pending;
    AddAllOrders(p, retained, Retained, |retained|);
    AddAllOrders(q, pending, Pending, |pending|);
    AddAllKeeps(p, retained, Retained, |retained|, active.kid);
    AddAllKeeps(q, pending, Pending, |pending|, active.kid);
    forall i | 0 <= i < |retained|
      ensures retained[i].kid in r.keys && r.keys[retained[i].kid] == Entry(retained[i].material, Retained)
    {
      AddAllAdds(p, retained, Retained, |retained|, i);
      AddAllKeeps(q, pending, Pending, |pending|, retained[i].kid);
    }
    forall i | 0 <= i < |pending|
      ensures pending[i].kid in r.keys && r.keys[pending[i].kid] == Entry(pending[i].material, Pending)
    {
      AddAllAdds(q, pending, Pending, |pending|, i);
    }
  }

  /** A file is accepted exactly if no kid occurs twice in it. */
  lemma LoadsExactly(active: Key, retained: seq<Key>, pending: seq<Key>)
    ensures Load(Store(active, retained, pending)).Some? <==>
              var kids := [active.kid] + Kids(retained) + Kids(pending);
              forall i, j | 0 <= i < j < |kids| :: kids[i] != kids[j]
  {
    hide AddAll;
    var kids := [active.kid] + Kids(retained) + Kids(pending);
    var p := Add(NO_KEYS, active, Active).value;
    AddAllSucceeds(p, retained, Retained, |retained|);
    if Load(Store(active, retained, pending)).Some? {
      LoadMeans(active, retained, pending);
      LoadedFilesAreSound(Store(active, retained, pending));
    } else if AddAll(p, retained, Retained, |retained|).Some? {
      var q := AddAll(p, retained, Retained, |retained|).value;
      AddAllSucceeds(q, pending, Pending, |pending|);
      KidsRepeat(p, q, active, retained, pending);
    } else {
      RetainedRepeat(active, retained, pending);
    }
  }

  lemma RetainedRepeat(active: Key, retained: seq<Key>, pending: seq<Key>)
    requires !((forall i | 0 <= i < |retained| :: retained[i].kid != active.kid)
               && forall i, j | 0 <= i < j < |retained| :: retained[i].kid != retained[j].kid)
    ensures var kids := [active.kid] + Kids(retained) + Kids(pending);
            exists i, j | 0 <= i < j < |kids| :: kids[i] == kids[j]
  {
    var kids := [active.kid] + Kids(retained) + Kids(pending);
    if i :| 0 <= i < |retained| && retained[i].kid == active.kid {
      assert kids[0] == kids[i + 1];
    } else {
      var i, j :| 0 <= i < j < |retained| && retained[i].kid == retained[j].kid;
      assert kids[i + 1] == kids[j + 1];
    }
  }

  lemma KidsRepeat(p: Provider, q: Provider, active: Key, retained: seq<Key>, pending: seq<Key>)
    requires Some(p) == Add(NO_KEYS, active, Active) && AddAll(p, retained, Retained, |retained|) == Some(q)
    requires !((forall i | 0 <= i < |pending| :: pending[i].kid !in q.keys)
               && forall i, j | 0 <= i < j < |pending| :: pending[i].kid != pending[j].kid)
    ensures var kids := [active.kid] + Kids(retained) + Kids(pending);
            exists i, j | 0 <= i < j < |kids| :: kids[i] == kids[j]
  {
    hide AddAll;
    var kids, n := [active.kid] + Kids(retained) + Kids(pending), 1 + |retained|;
    if i :| 0 <= i < |pending| && pending[i].kid in q.keys {
      AddAllKeeps(p, retained, Retained, |retained|, pending[i].kid);
      if pending[i].kid == active.kid {
        assert kids[0] == kids[n + i];
      } else {
        var j :| 0 <= j < |retained| && retained[j].kid == pending[i].kid;
        assert kids[1 + j] == kids[n + i];
      }
    } else {
      var i, j :| 0 <= i < j < |pending| && pending[i].kid == pending[j].kid;
      assert kids[n + i] == kids[n + j];
    }
  }

  // ---------------------------------------------------------------------------------------------
  // Operations

  datatype Op =
    | Generate(kid: string, material: nat)
    | Activate(kid: string)
    | Supersede(kid: string)
    | Purge(kid: string)

  /** Removes the first occurrence. */
  function Without(order: seq<string>, kid: string): seq<string> {
    if order == [] then [] else if order[0] == kid then order[1..] else [order[0]] + Without(order[1..], kid)
  }

  function Activated(p: Provider, kid: string): Provider
    requires kid in p.keys
  {
    if kid == p.activeKid then p
    else
      var retired :=
        if p.activeKid in p.keys then p.keys[p.activeKid := p.keys[p.activeKid].(state := Retained)] else p.keys;
      p.(keys := retired[kid := p.keys[kid].(state := Active)], activeKid := kid)
  }

  function Removed(p: Provider, kid: string): Provider {
    p.(keys := p.keys - {kid}, order := Without(p.order, kid))
  }

  /** The provider an operation asks to persist, or nothing if it is refused. */
  function Attempt(p: Provider, op: Op): Option<Provider> {
    match op
    case Generate(kid, material) =>
      if kid in p.keys then None
      else Some(p.(keys := p.keys[kid := Entry(material, Pending)], order := p.order + [kid]))
    case Activate(kid) =>
      if kid in p.keys then Some(Activated(p, kid)) else None
    case Supersede(kid) =>
      if kid in p.keys && p.keys[kid].state == Retained then Some(Removed(p, kid)) else None
    case Purge(kid) =>
      if kid in p.keys && p.keys[kid].state != Active then Some(Removed(p, kid)) else None
  }

  lemma {:induction false} WithoutKeepsOthers(order: seq<string>, kid: string)
    requires forall i, j | 0 <= i < j < |order| :: order[i] != order[j]
    ensures var r := Without(order, kid);
            && (forall i, j | 0 <= i < j < |r| :: r[i] != r[j])
            && (forall k :: k in r <==> k in order && k != kid)
    decreases |order|
  {
    if order != [] {
      assert order == [order[0]] + order[1..];
      if order[0] != kid {
        WithoutKeepsOthers(order[1..], kid);
        assert order[0] !in order[1..];
      } else {
        assert order[0] !in order[1..];
      }
    }
  }

  lemma AttemptKeepsInv(p: Provider, op: Op)
    requires Inv(p) && Attempt(p, op).Some?
    ensures Inv(Attempt(p, op).value)
  {
    hide Without;
    if op.Supersede? || op.Purge? {
      WithoutKeepsOthers(p.order, op.kid);
    }
  }

  lemma KeyOfStateIsListed(p: Provider, state: KeyState, kid: string)
    requires Inv(p) && HasState(p.keys, kid, state)
    ensures kid in Kids(Listing(p, state))
  {
    EverySelected(p.keys, p.order, state, kid);
  }

  /** A listing holds exactly the keys of its state. */
  lemma ListingIsExact(p: Provider, state: KeyState, key: Key)
    requires Inv(p)
    ensures key in Listing(p, state) <==> key.kid in p.keys && p.keys[key.kid] == Entry(key.material, state)
  {
    hide Select, Listing;
    ListingHas(p, state);
    var s := Listing(p, state);
    if key in s {
      var i :| 0 <= i < |s| && s[i] == key;
    }
    if key.kid in p.keys && p.keys[key.kid] == Entry(key.material, state) {
      KeyOfStateIsListed(p, state, key.kid);
      var i :| 0 <= i < |s| && Kids(s)[i] == key.kid;
      assert s[i] == key;
    }
  }

  function ActiveKey(p: Provider): Key
    requires p.activeKid in p.keys
  {
    Key(p.activeKid, p.keys[p.activeKid].material)
  }

  /** What an operation does to the active key and the two lists: a generated key becomes pending, an activated
      one leaves its list and the previous active key is retained, a removed one leaves its list. */
  lemma EffectOnLists(p: Provider, op: Op, key: Key)
    requires Inv(p) && Attempt(p, op).Some?
    ensures Attempt(p, op).value.activeKid in Attempt(p, op).value.keys
    ensures var q := Attempt(p, op).value;
            match op
            case Generate(kid, material) =>
              && ActiveKey(q) == ActiveKey(p)
              && (key in Listing(q, Retained) <==> key in Listing(p, Retained))
              && (key in Listing(q, Pending) <==> key in Listing(p, Pending) || key == Key(kid, material))
            case Activate(kid) =>
              && ActiveKey(q) == Key(kid, p.keys[kid].material)
              && (key in Listing(q, Retained) <==>
                    (key in Listing(p, Retained) && key.kid != kid) || (key == ActiveKey(p) && key.kid != kid))
              && (key in Listing(q, Pending) <==> key in Listing(p, Pending) && key.kid != kid)
            case _ =>
              && ActiveKey(q) == ActiveKey(p)
              && (key in Listing(q, Retained) <==> key in Listing(p, Retained) && key.kid != op.kid)
              && (key in Listing(q, Pending) <==> key in Listing(p, Pending) && key.kid != op.kid)
              && (op.Supersede? ==> Key(op.kid, p.keys[op.kid].material) in Listing(p, Retained))
  {
    hide Listing, Without;
    var q := Attempt(p, op).value;
    AttemptKeepsInv(p, op);
    ListingIsExact(p, Retained, key);
    ListingIsExact(p, Pending, key);
    ListingIsExact(q, Retained, key);
    ListingIsExact(q, Pending, key);
    if op.Supersede? {
      ListingIsExact(p, Retained, Key(op.kid, p.keys[op.kid].material));
    }
  }

  /** The order of insertion: a generated key comes last, a removed one goes, and nothing else moves. */
  lemma {:induction false} WithoutOne(order: seq<string>, kid: string) returns (i: nat)
    requires kid in order
    ensures i < |order| && order[i] == kid && Without(order, kid) == order[..i] + order[i + 1..]
  {
    if order[0] == kid {
      i := 0;
    } else {
      var j := WithoutOne(order[1..], kid);
      i := j + 1;
      assert order[..i] == [order[0]] + order[1..][..j];
    }
  }

  lemma OrderAfter(p: Provider, op: Op) returns (i: nat)
    requires Inv(p) && Attempt(p, op).Some?
    ensures var q := Attempt(p, op).value;
            match op
            case Generate(kid, _) => q.order == p.order + [kid]
            case Activate(_) => q.order == p.order
            case _ => i < |p.order| && p.order[i] == op.kid && q.order == p.order[..i] + p.order[i + 1..]
  {
    hide Without;
    i := 0;
    if op.Supersede? || op.Purge? {
      i := WithoutOne(p.order, op.kid);
    }
  }

  /** Both lists follow the order of insertion. */
  lemma {:induction false} ListsFollowOrder(keys: map<string, Entry>, order: seq<string>, state: KeyState)
    returns (positions: seq<nat>)
    ensures |positions| == |Select(keys, order, state)|
    ensures forall i | 0 <= i < |positions| ::
              positions[i] < |order| && order[positions[i]] == Select(keys, order, state)[i].kid
    ensures forall i, k | 0 <= i < k < |positions| :: positions[i] < positions[k]
    decreases |order|
  {
    if order == [] {
      return [];
    }
    var init, kid := order[..|order| - 1], order[|order| - 1];
    var before := ListsFollowOrder(keys, init, state);
    positions := before + if kid in keys && keys[kid].state == state then [|init|] else [];
  }

  /** What the parts of a file mean: the active key, and in memory order the retained keys and the pending ones. */
  lemma FileHolds(p: Provider, key: Key)
    requires Inv(p)
    ensures var file := FileOf(p);
            && file.Store? && file.active == ActiveKey(p)
            && (key in file.retained <==> key.kid in p.keys && p.keys[key.kid] == Entry(key.material, Retained))
            && (key in file.pending <==> key.kid in p.keys && p.keys[key.kid] == Entry(key.material, Pending))
  {
    hide Listing;
    ListingIsExact(p, Retained, key);
    ListingIsExact(p, Pending, key);
  }

  // ---------------------------------------------------------------------------------------------
  // Crash consistency

  /** The provider in memory and the file that is visible. */
  datatype Disk = Disk(p: Provider, file: StoreFile)

  /** Reloading the visible file gives the keys in memory. */
  ghost predicate Consistent(d: Disk) {
    Inv(d.p) && Load(d.file).Some? && SameKeys(Load(d.file).value, d.p)
  }

  /** A failed write is rolled back; a write that is visible but not durable is not. */
  ghost function Next(d: Disk, op: Op, outcome: Outcome): (n: Disk)
    requires Inv(d.p)
  {
    var attempt := Attempt(d.p, op);
    if attempt.None? || outcome.Failed? then d
    else
      AttemptKeepsInv(d.p, op);
      Disk(attempt.value, FileOf(attempt.value))
  }

  /** A failed write changes nothing; after any other the operation stands, in memory and in the visible file. */
  lemma OutcomesMean(d: Disk, op: Op)
    requires Inv(d.p)
    ensures Next(d, op, Failed) == d
    ensures Attempt(d.p, op).None? ==> Next(d, op, Published) == Next(d, op, NotDurable) == d
    ensures Attempt(d.p, op).Some? ==>
              && Next(d, op, Published) == Next(d, op, NotDurable)
              && Next(d, op, Published).p == Attempt(d.p, op).value
              && Load(Next(d, op, Published).file).Some?
              && SameKeys(Load(Next(d, op, Published).file).value, Attempt(d.p, op).value)
  {
    hide Load, SameKeys, Inv, Attempt;
    if Attempt(d.p, op).Some? {
      AttemptKeepsInv(d.p, op);
      LoadOfFile(Attempt(d.p, op).value);
    }
  }

  /** What is refused: a generated kid that exists, an unknown kid, and the removal of a key in another state. */
  lemma RefusedExactly(p: Provider, op: Op)
    ensures Attempt(p, op).None? <==>
            match op
            case Generate(kid, _) => kid in p.keys
            case Activate(kid) => kid !in p.keys
            case Supersede(kid) => kid in p.keys ==> p.keys[kid].state != Retained
            case Purge(kid) => kid in p.keys ==> p.keys[kid].state == Active
  {
  }

  lemma NextIsConsistent(d: Disk, op: Op, outcome: Outcome)
    requires Consistent(d)
    ensures Consistent(Next(d, op, outcome))
  {
    hide SameKeys, Inv, Load, Attempt;
    if Attempt(d.p, op).Some? && !outcome.Failed? {
      AttemptKeepsInv(d.p, op);
      LoadOfFile(Attempt(d.p, op).value);
    }
  }

  /** Operations with the outcomes of their writes. */
  ghost function Run(d: Disk, ops: seq<(Op, Outcome)>): Disk
    requires Consistent(d)
    decreases |ops|
  {
    if ops == [] then d
    else
      NextIsConsistent(d, ops[0].0, ops[0].1);
      Run(Next(d, ops[0].0, ops[0].1), ops[1..])
  }

  /** After any operations with any failures, starting from any accepted file, a reload gives the same active
      key, retained list and pending list, with one active entry and every key listed once. */
  lemma {:induction false} RunsAreCrashConsistent(d: Disk, ops: seq<(Op, Outcome)>)
    requires Consistent(d)
    ensures Consistent(Run(d, ops))
    decreases |ops|
  {
    hide Inv, Load, SameKeys, Next;
    if ops != [] {
      NextIsConsistent(d, ops[0].0, ops[0].1);
      RunsAreCrashConsistent(Next(d, ops[0].0, ops[0].1), ops[1..]);
    }
  }

  lemma LoadedDiskIsConsistent(file: StoreFile)
    requires Load(file).Some?
    ensures Consistent(Disk(Load(file).value, file))
  {
    LoadedFilesAreSound(file);
  }

  // ---------------------------------------------------------------------------------------------
  // The provider object

  lemma {:induction false} WithoutAt(order: seq<string>, kid: string, i: nat)
    requires i < |order| && order[i] == kid && forall j | 0 <= j < i :: order[j] != kid
    ensures Without(order, kid) == order[..i] + order[i + 1..]
    decreases i
  {
    if i > 0 {
      WithoutAt(order[1..], kid, i - 1);
      assert order[..i] == [order[0]] + order[1..][..i - 1];
    }
  }

  lemma {:induction false} WithoutAbsent(order: seq<string>, kid: string)
    requires forall j | 0 <= j < |order| :: order[j] != kid
    ensures Without(order, kid) == order
  {
    if order != [] {
      WithoutAbsent(order[1..], kid);
    }
  }

  lemma SelectOfPrefix(keys: map<string, Entry>, order: seq<string>, state: KeyState, i: nat)
    requires i < |order|
    ensures Select(keys, order[..i + 1], state) ==
            Select(keys, order[..i], state) +
              if order[i] in keys && keys[order[i]].state == state then [Key(order[i], keys[order[i]].material)] else []
  {
    assert order[..i + 1][..i] == order[..i];
  }

  function Leading(activeKid: string): seq<string> {
    if activeKid != "" then [activeKid] else []
  }

  datatype Reply = Done | Refused | WriteFailed | DurabilityUncertain

  /** What a caller learns of a write: it was rolled back, it stands but may not be durable, or it stands. */
  function WriteReply(outcome: Outcome): Reply {
    match outcome
    case Published => Done
    case Failed => WriteFailed
    case NotDurable => DurabilityUncertain
  }

  class LocalKeyProvider {
    var keys: map<string, Entry>
    var order: seq<string>
    var activeKid: string
    var file: StoreFile

    ghost function State(): Provider
      reads this
    {
      Provider(keys, order, activeKid)
    }

    ghost function OnDisk(): Disk
      reads this
    {
      Disk(State(), file)
    }

    constructor (p: Provider, file: StoreFile)
      requires Load(file) == Some(p)
      ensures OnDisk() == Disk(p, file) && Consistent(OnDisk())
    {
      keys, order, activeKid, this.file := p.keys, p.order, p.activeKid, file;
      LoadedDiskIsConsistent(file);
    }

    /** Sorts the entries, in order, into the three parts of the file. */
    method BuildFile() returns (built: StoreFile)
      requires Inv(State())
      ensures built == FileOf(State())
    {
      hide Select;
      var active: Option<Key>, retained: seq<Key>, pending: seq<Key> := None, [], [];
      NothingSelected(keys, order);
      for i := 0 to |order|
        invariant retained == Select(keys, order[..i], Retained) && pending == Select(keys, order[..i], Pending)
        invariant active.Some? ==> active.value == Key(activeKid, keys[activeKid].material)
        invariant (exists j | 0 <= j < i :: order[j] == activeKid) ==> active.Some?
      {
        var kid := order[i];
        SelectOfPrefix(keys, order, Retained, i);
        SelectOfPrefix(keys, order, Pending, i);
        if kid in keys {
          var key := Key(kid, keys[kid].material);
          match keys[kid].state
          case Active => active := Some(key);
          case Retained => retained := retained + [key];
          case Pending => pending := pending + [key];
        }
      }
      assert order[..|order|] == order;
      assert activeKid in order;
      built := Store(active.value, retained, pending);
    }

    method Persist(outcome: Outcome) returns (reply: Reply)
      requires Inv(State())
      modifies this`file
      ensures file == if outcome.Failed? then old(file) else FileOf(State())
      ensures reply == WriteReply(outcome)
    {
      hide Inv, Select;
      var built := BuildFile();
      if outcome.Failed? {
        return WriteFailed;
      }
      file := built;
      reply := if outcome.NotDurable? then DurabilityUncertain else Done;
    }

    method GenerateKey(kid: string, material: nat, outcome: Outcome) returns (reply: Reply)
      requires Consistent(OnDisk())
      modifies this
      ensures OnDisk() == Next(old(OnDisk()), Generate(kid, material), outcome) && Consistent(OnDisk())
      ensures reply.Refused? <==> old(Attempt(State(), Generate(kid, material))).None?
      ensures !reply.Refused? ==> reply == WriteReply(outcome)
    {
      hide Consistent, Inv, Listing, Activated, Removed;
      ghost var before := OnDisk();
      SoundWhenConsistent(before);
      NextIsConsistent(before, Generate(kid, material), outcome);
      if kid in keys {
        return Refused;
      }
      keys := keys[kid := Entry(material, Pending)];
      order := order + [kid];
      AttemptKeepsInv(before.p, Generate(kid, material));
      reply := Persist(outcome);
      if reply == WriteFailed {
        keys := keys - {kid};
        order := order[..|order| - 1];
        GenerationUndone(before.p, kid, Entry(material, Pending));
      }
    }

    method Activate(kid: string, outcome: Outcome) returns (reply: Reply)
      requires Consistent(OnDisk())
      modifies this
      ensures OnDisk() == Next(old(OnDisk()), Op.Activate(kid), outcome) && Consistent(OnDisk())
      ensures reply.Refused? <==> kid !in old(keys)
      ensures !reply.Refused? ==> reply == WriteReply(outcome)
    {
      hide Consistent, Inv, Listing;
      ghost var before := OnDisk();
      SoundWhenConsistent(before);
      NextIsConsistent(before, Op.Activate(kid), outcome);
      if kid !in keys {
        return Refused;
      }
      if activeKid == kid {
        reply := Persist(outcome);
        return;
      }
      var oldActive, oldState := activeKid, keys[kid].state;
      keys := keys[activeKid := keys[activeKid].(state := Retained)];
      keys := keys[kid := keys[kid].(state := KeyState.Active)];
      activeKid := kid;
      AttemptKeepsInv(before.p, Op.Activate(kid));
      reply := Persist(outcome);
      if reply == WriteFailed {
        keys := keys[oldActive := keys[oldActive].(state := KeyState.Active)];
        keys := keys[kid := keys[kid].(state := oldState)];
        activeKid := oldActive;
        RolledBack(before.p, kid);
      }
    }

    method Supersede(kid: string, outcome: Outcome) returns (reply: Reply)
      requires Consistent(OnDisk())
      modifies this
      ensures OnDisk() == Next(old(OnDisk()), Op.Supersede(kid), outcome) && Consistent(OnDisk())
      ensures reply.Refused? <==> old(Attempt(State(), Op.Supersede(kid))).None?
      ensures !reply.Refused? ==> reply == WriteReply(outcome)
    {
      hide Consistent, Without, Inv, Listing;
      SoundWhenConsistent(OnDisk());
      NextIsConsistent(OnDisk(), Op.Supersede(kid), outcome);
      if kid !in keys || keys[kid].state != Retained {
        return Refused;
      }
      reply := Purge(kid, outcome);
    }

    method Purge(kid: string, outcome: Outcome) returns (reply: Reply)
      requires Consistent(OnDisk())
      modifies this
      ensures OnDisk() == Next(old(OnDisk()), Op.Purge(kid), outcome) && Consistent(OnDisk())
      ensures reply.Refused? <==> old(Attempt(State(), Op.Purge(kid))).None?
      ensures !reply.Refused? ==> reply == WriteReply(outcome)
    {
      hide Consistent, Inv, Listing, Without;
      ghost var before := OnDisk();
      SoundWhenConsistent(before);
      NextIsConsistent(before, Op.Purge(kid), outcome);
      if kid !in keys || keys[kid].state == KeyState.Active {
        return Refused;
      }
      var entry, oldOrder := keys[kid], order;
      keys := keys - {kid};
      order := RemoveFirst(order, kid);
      AttemptKeepsInv(before.p, Op.Purge(kid));
      reply := Persist(outcome);
      if reply == WriteFailed {
        keys := keys[kid := entry];
        order := oldOrder;
        assert keys == before.p.keys;
      }
    }

    /** The active kid first, if there is one, then the retained ones in order. */
    method ListKeyIds() returns (ids: seq<string>)
      ensures ids == Leading(activeKid) + Kids(Listing(State(), Retained))
    {
      hide Select;
      ids := [];
      if activeKid != "" {
        ids := ids + [activeKid];
      }
      NothingSelected(keys, order);
      for i := 0 to |order|
        invariant ids == Leading(activeKid) + Kids(Select(keys, order[..i], Retained))
      {
        SelectOfPrefix(keys, order, Retained, i);
        if order[i] in keys && keys[order[i]].state == Retained {
          ids := ids + [order[i]];
        }
      }
      assert order[..|order|] == order;
    }
  }

  lemma SoundWhenConsistent(d: Disk)
    requires Consistent(d)
    ensures Inv(d.p) && d.p.activeKid in d.p.keys && d.p.keys[d.p.activeKid].state == Active
  {
  }

  /** Taking the new key out again undoes a generation. */
  lemma GenerationUndone(p: Provider, kid: string, entry: Entry)
    requires kid !in p.keys
    ensures p.keys[kid := entry] - {kid} == p.keys && (p.order + [kid])[..|p.order + [kid]| - 1] == p.order
  {
  }

  /** Restoring both states undoes an activation. */
  lemma RolledBack(p: Provider, kid: string)
    requires p.activeKid in p.keys && p.keys[p.activeKid].state == Active && kid in p.keys && kid != p.activeKid
    ensures var keys := Activated(p, kid).keys;
            var active := keys[p.activeKid := keys[p.activeKid].(state := Active)];
            active[kid := active[kid].(state := p.keys[kid].state)] == p.keys
  {
  }

  lemma NothingSelected(keys: map<string, Entry>, order: seq<string>)
    ensures Select(keys, order[..0], Retained) == [] && Select(keys, order[..0], Pending) == []
  {
  }

  /** The loop that takes a kid out of the order. */
  method RemoveFirst(order: seq<string>, kid: string) returns (r: seq<string>)
    ensures r == Without(order, kid)
  {
    for i := 0 to |order|
      invariant forall j | 0 <= j < i :: order[j] != kid
    {
      if order[i] == kid {
        WithoutAt(order, kid, i);
        return order[..i] + order[i + 1..];
      }
    }
    WithoutAbsent(order, kid);
    r := order;
  }

  /** Adds the keys of one part of a file. */
  method AddKeys(p: Provider, keys: seq<Key>, state: KeyState) returns (r: Option<Provider>)
    ensures r == AddAll(p, keys, state, |keys|)
  {
    var q := p;
    for i := 0 to |keys|
      invariant AddAll(p, keys, state, i) == Some(q)
    {
      if keys[i].kid in q.keys {
        DuplicateStays(p, keys, state, i + 1);
        return None;
      }
      q := Provider(q.keys[keys[i].kid := Entry(keys[i].material, state)], q.order + [keys[i].kid],
                    if state == Active then keys[i].kid else q.activeKid);
    }
    r := Some(q);
  }

  lemma {:induction false} DuplicateStays(p: Provider, keys: seq<Key>, state: KeyState, n: nat)
    requires n <= |keys| && AddAll(p, keys, state, n).None?
    ensures AddAll(p, keys, state, |keys|).None?
    decreases |keys| - n
  {
    if n < |keys| {
      DuplicateStays(p, keys, state, n + 1);
    }
  }

  /** Reads a store file; a second key of the same kid is refused. */
  method LoadFile(file: StoreFile) returns (r: Option<Provider>)
    ensures r == Load(file)
    ensures r.Some? ==> Inv(r.value)
  {
    hide AddAll, Inv;
    if Load(file).Some? {
      LoadedFilesAreSound(file);
    }
    match file
    case Flat(key) =>
      r := Add(NO_KEYS, key, Active);
    case Store(active, retained, pending) =>
      var p := Add(NO_KEYS, active, Active);
      if p.None? {
        return None;
      }
      var q := AddKeys(p.value, retained, Retained);
      if q.None? {
        return None;
      }
      r := AddKeys(q.value, pending, Pending);
  }
}
