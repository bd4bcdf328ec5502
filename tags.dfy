/** The tag store behind TagService and the tag resolution of
    ImageController.findOrCreateTags, stated as functions over store values so
    that its properties can be proved once and used by the controller. */
module Tags {
  import opened Wrappers
  import opened Text

  /** A persisted tag: the identity assigned on creation and its name. */
  datatype Tag = Tag(id: nat, name: string)

  /** The persisted tags indexed by name, and the id the next created tag gets. */
  datatype Store = Store(byName: map<string, Tag>, nextId: nat)

  /** Each tag is stored under its own name, with an id already handed out,
      and no two names share an id. */
  predicate Valid(st: Store) {
    && (forall n :: n in st.byName ==> st.byName[n].name == n && st.byName[n].id < st.nextId)
    && (forall a, b :: a in st.byName && b in st.byName && st.byName[a].id == st.byName[b].id ==> a == b)
  }

  /** st' keeps every tag of st with its id and name, and hands out no id twice. */
  predicate Extends(st: Store, st': Store) {
    && st.nextId <= st'.nextId
    && forall n :: n in st.byName ==> n in st'.byName && st'.byName[n] == st.byName[n]
  }

  /** Every tag of ts is the tag stored under its name. */
  predicate AllStored(st: Store, ts: seq<Tag>) {
    forall i :: 0 <= i < |ts| ==> ts[i].name in st.byName && st.byName[ts[i].name] == ts[i]
  }

  function Names(ts: seq<Tag>): seq<string> {
    seq(|ts|, i requires 0 <= i < |ts| => ts[i].name)
  }

  /** TagService.getTagByName: the stored tag, or None where Java gets null. */
  function GetTagByName(st: Store, name: string): (r: Option<Tag>)
    ensures r.Some? <==> name in st.byName
    ensures r.Some? ==> r.value == st.byName[name]
    ensures Valid(st) && r.Some? ==> r.value.name == name
  {
    if name in st.byName then Some(st.byName[name]) else None
  }

  /** A tag together with the store it was resolved against. */
  datatype Found = Found(tag: Tag, store: Store)

  /** Tags in the order they were resolved, and the store left afterwards. */
  datatype Resolved = Resolved(tags: seq<Tag>, store: Store)

  /** TagService.createTag(new Tag(name)): persists the tag under a fresh id. */
  function CreateTag(st: Store, name: string): (f: Found)
    ensures f.tag.name == name && f.tag.id == st.nextId && f.store.nextId == st.nextId + 1
    ensures f.store.byName.Keys == st.byName.Keys + {name} && f.store.byName[name] == f.tag
    ensures forall n :: n in st.byName && n != name ==> f.store.byName[n] == st.byName[n]
  {
    var t := Tag(st.nextId, name);
    Found(t, Store(st.byName[name := t], st.nextId + 1))
  }

  /** One iteration of the loop in findOrCreateTags: a found name yields its
      stored tag and leaves the store alone; a missed one is created. */
  function FindOrCreate(st: Store, name: string): (f: Found)
    ensures name in f.store.byName && f.store.byName[name] == f.tag
    ensures f.store.byName.Keys == st.byName.Keys + {name}
    ensures name in st.byName ==> f == Found(st.byName[name], st)
    ensures name !in st.byName ==> f.tag.id == st.nextId && f.store.nextId == st.nextId + 1
  {
    match GetTagByName(st, name)
    case Some(t) => Found(t, st)
    case None => CreateTag(st, name)
  }

  /** The loop of findOrCreateTags over the given names, left to right: the
      tags it collects and the store it leaves. */
  function FindOrCreateAll(st: Store, names: seq<string>): (r: Resolved)
    ensures |r.tags| == |names|
    ensures st.nextId <= r.store.nextId <= st.nextId + |names|
    decreases |names|
  {
    if names == [] then Resolved([], st)
    else
      var f := FindOrCreate(st, names[0]);
      var rest := FindOrCreateAll(f.store, names[1..]);
      Resolved([f.tag] + rest.tags, rest.store)
  }

  /** The names findOrCreateTags resolves: the trimmed tokens, in input order. */
  function TagNames(tagString: string): seq<string> {
    TrimAll(Tokens(tagString))
  }

  /** findOrCreateTags(tagString) run against the store st: against a
      consistent store, one stored tag per trimmed token, in order, and a
      consistent store that keeps every earlier tag. */
  function FindOrCreateTags(st: Store, tagString: string): (r: Resolved)
    ensures r.store.byName.Keys == st.byName.Keys + (set n | n in TagNames(tagString))
    ensures Valid(st) ==>
      && Valid(r.store) && Extends(st, r.store)
      && Names(r.tags) == TagNames(tagString) && AllStored(r.store, r.tags)
  {
    var names := TagNames(tagString);
    FindOrCreateAllGrows(st, names);
    if Valid(st) then
      FindOrCreateAllValid(st, names);
      FindOrCreateAllNames(st, names);
      FindOrCreateAllStored(st, names);
      FindOrCreateAll(st, names)
    else
      FindOrCreateAll(st, names)
  }

  // ---------------------------------------------------------------------------
  // Lemmas
  // ---------------------------------------------------------------------------

  /** Resolving one name keeps the store consistent and loses no tag. */
  lemma FindOrCreateStep(st: Store, name: string)
    requires Valid(st)
    ensures var f := FindOrCreate(st, name);
      Valid(f.store) && Extends(st, f.store)
  {
  }

  /** Tags stored in st stay stored in any store that extends it. */
  lemma AllStoredExtends(st: Store, st': Store, ts: seq<Tag>)
    requires AllStored(st, ts) && Extends(st, st')
    ensures AllStored(st', ts)
  {
  }

  /** Resolving one more name continues from the store the earlier names left. */
  lemma {:induction false} FindOrCreateAllSnoc(st: Store, names: seq<string>, name: string)
    ensures var r := FindOrCreateAll(st, names);
      var f := FindOrCreate(r.store, name);
      FindOrCreateAll(st, names + [name]) == Resolved(r.tags + [f.tag], f.store)
    decreases |names|
  {
    if names == [] {
      assert [] + [name] == [name];
    } else {
      assert (names + [name])[1..] == names[1..] + [name];
      FindOrCreateAllSnoc(FindOrCreate(st, names[0]).store, names[1..], name);
    }
  }

  /** The store only grows: existing tags keep id and name, the only names
      added are the input's, and every added tag has a fresh id. */
  lemma {:induction false} FindOrCreateAllGrows(st: Store, names: seq<string>)
    ensures var st' := FindOrCreateAll(st, names).store;
      && Extends(st, st')
      && st'.byName.Keys == st.byName.Keys + (set n | n in names)
      && forall n :: n in st'.byName && n !in st.byName ==> st.nextId <= st'.byName[n].id
    decreases |names|
  {
    if names != [] {
      var st1 := FindOrCreate(st, names[0]).store;
      FindOrCreateAllGrows(st1, names[1..]);
      assert (set n | n in names) == {names[0]} + (set n | n in names[1..]);
    }
  }

  /** The store invariant survives the whole loop. */
  lemma {:induction false} FindOrCreateAllValid(st: Store, names: seq<string>)
    requires Valid(st)
    ensures Valid(FindOrCreateAll(st, names).store)
    decreases |names|
  {
    if names != [] {
      FindOrCreateStep(st, names[0]);
      FindOrCreateAllValid(FindOrCreate(st, names[0]).store, names[1..]);
    }
  }

  /** One tag per name, in input order, each carrying that name. */
  lemma {:induction false} FindOrCreateAllNames(st: Store, names: seq<string>)
    requires Valid(st)
    ensures Names(FindOrCreateAll(st, names).tags) == names
    decreases |names|
  {
    if names != [] {
      var f := FindOrCreate(st, names[0]);
      var rest := FindOrCreateAll(f.store, names[1..]);
      FindOrCreateStep(st, names[0]);
      FindOrCreateAllNames(f.store, names[1..]);
      assert Names([f.tag] + rest.tags) == [f.tag.name] + Names(rest.tags);
    }
  }

  /** Afterwards every returned tag is the one stored under its name, and a
      name the store already knew yields the tag stored before. */
  lemma {:induction false} FindOrCreateAllStored(st: Store, names: seq<string>)
    requires Valid(st)
    ensures var r := FindOrCreateAll(st, names);
      && |r.tags| == |names|
      && AllStored(r.store, r.tags)
      && forall i :: 0 <= i < |names| && names[i] in st.byName ==> r.tags[i] == st.byName[names[i]]
    decreases |names|
  {
    if names != [] {
      var f := FindOrCreate(st, names[0]);
      var rest := FindOrCreateAll(f.store, names[1..]);
      var r := FindOrCreateAll(st, names);
      FindOrCreateStep(st, names[0]);
      FindOrCreateAllStored(f.store, names[1..]);
      FindOrCreateAllGrows(f.store, names[1..]);
      assert r.tags == [f.tag] + rest.tags && r.store == rest.store;
      forall i | 0 <= i < |r.tags|
        ensures r.tags[i].name in r.store.byName && r.store.byName[r.tags[i].name] == r.tags[i]
        ensures names[i] in st.byName ==> r.tags[i] == st.byName[names[i]]
      {
        if i > 0 {
          assert r.tags[i] == rest.tags[i - 1];
          assert names[i] == names[1..][i - 1];
        }
      }
    }
  }

  /** Every occurrence of a repeated name resolves to the same tag. */
  lemma RepeatedNameSameTag(st: Store, names: seq<string>, i: nat, j: nat)
    requires Valid(st)
    requires i < |names| && j < |names| && names[i] == names[j]
    ensures var ts := FindOrCreateAll(st, names).tags;
      |ts| == |names| && ts[i] == ts[j]
  {
    FindOrCreateAllNames(st, names);
    FindOrCreateAllStored(st, names);
    var ts := FindOrCreateAll(st, names).tags;
    assert Names(ts)[i] == ts[i].name && Names(ts)[j] == ts[j].name;
  }

  /** Exactly one tag is created per distinct name the store did not know: the
      id counter advances by the number of names added. */
  lemma {:induction false} FindOrCreateAllCreatesOncePerName(st: Store, names: seq<string>)
    ensures var st' := FindOrCreateAll(st, names).store;
      st'.nextId == st.nextId + |st'.byName.Keys - st.byName.Keys|
    decreases |names|
  {
    if names == [] {
      assert st.byName.Keys - st.byName.Keys == {};
    } else {
      var st1 := FindOrCreate(st, names[0]).store;
      var st2 := FindOrCreateAll(st1, names[1..]).store;
      FindOrCreateAllCreatesOncePerName(st1, names[1..]);
      if names[0] !in st.byName {
        assert st1.byName.Keys <= st2.byName.Keys by {
          FindOrCreateAllGrows(st1, names[1..]);
        }
        OneMoreKey(st.byName.Keys, st1.byName.Keys, st2.byName.Keys, names[0]);
      }
    }
  }

  lemma OneMoreKey(k0: set<string>, k1: set<string>, k2: set<string>, n: string)
    requires n !in k0 && k1 == k0 + {n} && k1 <= k2
    ensures |k2 - k0| == |k2 - k1| + 1
  {
    assert k2 - k0 == (k2 - k1) + {n};
  }

  /** When every name is already stored, nothing is created and the stored
      tags are returned. */
  lemma {:induction false} FindOrCreateAllKnown(st: Store, names: seq<string>)
    requires forall i :: 0 <= i < |names| ==> names[i] in st.byName
    ensures var r := FindOrCreateAll(st, names);
      && r.store == st
      && |r.tags| == |names|
      && forall i :: 0 <= i < |names| ==> r.tags[i] == st.byName[names[i]]
    decreases |names|
  {
    if names != [] {
      FindOrCreateAllKnown(st, names[1..]);
    }
  }

  /** Resolving the same tag string a second time finds every tag the first
      run returned: the same identities, and no new record. */
  lemma ResolveTwiceCreatesNothing(st: Store, tagString: string)
    requires Valid(st)
    ensures var r := FindOrCreateTags(st, tagString);
      FindOrCreateTags(r.store, tagString) == r
  {
    var names := TagNames(tagString);
    var r := FindOrCreateAll(st, names);
    FindOrCreateAllNames(st, names);
    FindOrCreateAllStored(st, names);
    assert forall i :: 0 <= i < |names| ==> names[i] == Names(r.tags)[i] == r.tags[i].name;
    FindOrCreateAllKnown(r.store, names);
    assert FindOrCreateAll(r.store, names).tags == r.tags;
  }

  /** Round trip of convertTagsToString and findOrCreateTags: joining stored
      tags whose names are non-empty, trimmed and comma-free, then resolving
      the string, gives the same tags back and creates none. */
  lemma RoundTrip(st: Store, ts: seq<Tag>)
    requires AllStored(st, ts)
    requires forall i :: 0 <= i < |ts| ==> ts[i].name != [] && IsTrimmed(ts[i].name) && CommaFree(ts[i].name)
    ensures FindOrCreateTags(st, Join(Names(ts))) == Resolved(ts, st)
  {
    var names := Names(ts);
    TokensJoin(names);
    assert TagNames(Join(names)) == names;
    FindOrCreateAllKnown(st, names);
  }

  /** Whatever the store holds, resolving the join of non-empty, trimmed,
      comma-free names gives tags with those names, in that order. */
  lemma RoundTripNames(st: Store, names: seq<string>)
    requires Valid(st)
    requires forall i :: 0 <= i < |names| ==> names[i] != [] && IsTrimmed(names[i]) && CommaFree(names[i])
    ensures Names(FindOrCreateTags(st, Join(names)).tags) == names
  {
    TokensJoin(names);
    assert TagNames(Join(names)) == names;
    FindOrCreateAllNames(st, names);
  }

  /** A whitespace-only tag string is not skipped: it resolves to the tag named
      "", created if the store has none. */
  lemma BlankTagIsCreated(st: Store, s: string)
    requires s != []
    requires forall j :: 0 <= j < |s| ==> IsTrimSpace(s[j])
    requires "" !in st.byName
    ensures FindOrCreateTags(st, s) == Resolved([Tag(st.nextId, "")], Store(st.byName["" := Tag(st.nextId, "")], st.nextId + 1))
  {
    BlankTokenTrimsToEmpty(s);
    assert TagNames(s) == [""];
    assert [""][1..] == [];
  }
}
