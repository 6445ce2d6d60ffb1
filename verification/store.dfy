/** The alias store (`src/store.rs`): a map from alias name to command, kept in
    key order like the `BTreeMap` it models. Loading and saving the JSON file are
    not part of this model. */
module Store {
  import opened Results
  import opened Paths
  import opened StringOrder

  datatype AliasStore = AliasStore(aliases: map<string, string>)

  /** A store with no aliases. */
  function NewStore(): (s: AliasStore)
    ensures forall name :: !HasKey(s, name)
  {
    AliasStore(map[])
  }

  /** Whether an alias of that name exists. */
  predicate HasKey(store: AliasStore, name: string) {
    name in store.aliases
  }

  /** Inserts or overwrites an alias; the flag says whether the name was new. */
  function AddAlias(store: AliasStore, name: string, command: string): (r: (AliasStore, bool))
    ensures r.1 <==> !HasKey(store, name)
    ensures HasKey(r.0, name) && r.0.aliases[name] == command
    ensures r.0.aliases.Keys == store.aliases.Keys + {name}
    ensures forall other :: other != name && HasKey(store, other) ==> r.0.aliases[other] == store.aliases[other]
  {
    var isNew := name !in store.aliases;
    (AliasStore(store.aliases[name := command]), isNew)
  }

  /** Removes an alias; the flag says whether it was there. */
  function RemoveAlias(store: AliasStore, name: string): (r: (AliasStore, bool))
    ensures r.1 <==> HasKey(store, name)
    ensures !HasKey(r.0, name)
    ensures r.0.aliases.Keys == store.aliases.Keys - {name}
    ensures forall other :: HasKey(r.0, other) ==> r.0.aliases[other] == store.aliases[other]
  {
    var removed := name in store.aliases;
    (AliasStore(store.aliases - {name}), removed)
  }

  /** `has_key` follows the updates: a name is present after an add exactly when
      it was added or was already present, and after a remove exactly when it is
      another name that was already present. */
  lemma HasKeyTracksUpdates(store: AliasStore, name: string, command: string, other: string)
    ensures HasKey(AddAlias(store, name, command).0, other) <==> other == name || HasKey(store, other)
    ensures HasKey(RemoveAlias(store, name).0, other) <==> other != name && HasKey(store, other)
  {
  }

  /** Removing a name just added undoes the addition. */
  lemma RemoveUndoesAdd(store: AliasStore, name: string, command: string)
    requires !HasKey(store, name)
    ensures RemoveAlias(AddAlias(store, name, command).0, name) == (store, true)
  {
    assert AddAlias(store, name, command).0.aliases - {name} == store.aliases;
  }

  /** Adding back a name just removed, with its old command, restores the store. */
  lemma AddUndoesRemove(store: AliasStore, name: string)
    requires HasKey(store, name)
    ensures AddAlias(RemoveAlias(store, name).0, name, store.aliases[name]) == (store, true)
  {
    assert (store.aliases - {name})[name := store.aliases[name]] == store.aliases;
  }

  /** The unit tests of the store, as statements about the model. */
  lemma StoreScenarios()
    ensures AddAlias(NewStore(), "gs", "git status").1
    ensures var s := AddAlias(NewStore(), "gs", "git status").0;
      && !AddAlias(s, "gs", "git stash").1
      && AddAlias(s, "gs", "git stash").0.aliases["gs"] == "git stash"
      && RemoveAlias(s, "gs") == (NewStore(), true)
      && HasKey(s, "gs")
    ensures !RemoveAlias(NewStore(), "nonexistent").1
    ensures !HasKey(NewStore(), "nope")
  {
    RemoveUndoesAdd(NewStore(), "gs", "git status");
  }

  /** Keys of a listing, in listing order. */
  function KeysOf(entries: seq<(string, string)>): (keys: seq<string>)
    ensures |keys| == |entries|
    ensures forall i :: 0 <= i < |entries| ==> keys[i] == entries[i].0
  {
    seq(|entries|, i requires 0 <= i < |entries| => entries[i].0)
  }

  /** The aliases in ascending key order, each name once with its command, as
      iterating the `BTreeMap` yields them. */
  method ListAliases(store: AliasStore) returns (entries: seq<(string, string)>)
    ensures StrictlyAscending(KeysOf(entries))
    ensures |entries| == |store.aliases|
    ensures forall i :: 0 <= i < |entries| ==> HasKey(store, entries[i].0) && store.aliases[entries[i].0] == entries[i].1
    ensures forall name :: name in KeysOf(entries) <==> HasKey(store, name)
  {
    var remaining := store.aliases.Keys;
    var keys: seq<string> := [];
    while remaining != {}
      invariant StrictlyAscending(keys)
      invariant forall name :: name in store.aliases <==> name in keys || name in remaining
      invariant forall name :: name in keys ==> name !in remaining
      invariant |keys| + |remaining| == |store.aliases|
      decreases |remaining|
    {
      var k :| k in remaining;
      keys := Insert(keys, k);
      assert forall name :: name in keys <==> name in multiset(keys);
      remaining := remaining - {k};
    }
    entries := seq(|keys|, i requires 0 <= i < |keys| => (keys[i], store.aliases[keys[i]]));
    assert KeysOf(entries) == keys;
  }

  /** The listing is determined by the store: two key-ascending listings of the
      same names are the same listing. */
  lemma ListingIsUnique(store: AliasStore, e1: seq<(string, string)>, e2: seq<(string, string)>)
    requires StrictlyAscending(KeysOf(e1)) && StrictlyAscending(KeysOf(e2))
    requires forall i :: 0 <= i < |e1| ==> HasKey(store, e1[i].0) && store.aliases[e1[i].0] == e1[i].1
    requires forall i :: 0 <= i < |e2| ==> HasKey(store, e2[i].0) && store.aliases[e2[i].0] == e2[i].1
    requires forall name :: HasKey(store, name) ==> name in KeysOf(e1) && name in KeysOf(e2)
    ensures e1 == e2
  {
    var k1, k2 := KeysOf(e1), KeysOf(e2);
    forall x
      ensures x in k1 <==> x in k2
    {
      if x in k1 {
        var i :| 0 <= i < |k1| && k1[i] == x;
        assert HasKey(store, e1[i].0);
      }
      if x in k2 {
        var i :| 0 <= i < |k2| && k2[i] == x;
        assert HasKey(store, e2[i].0);
      }
    }
    AscendingUnique(k1, k2);
    assert forall i :: 0 <= i < |e1| ==> e1[i] == (k1[i], store.aliases[k1[i]]);
  }

  /** The store of the listing test holds exactly the names z, a and m. */
  lemma ListingTestStore(store: AliasStore)
    requires store == AddAlias(AddAlias(AddAlias(NewStore(), "z", "zulu").0, "a", "alpha").0, "m", "mike").0
    ensures store.aliases.Keys == {"z", "a", "m"}
  {
  }

  /** a, m, z is in ascending order. */
  lemma AscendingAMZ(keys: seq<string>)
    requires keys == ["a", "m", "z"]
    ensures StrictlyAscending(keys)
  {
    assert Less(keys[0], keys[1]) && Less(keys[1], keys[2]);
  }

  /** The listing test: aliases added as z, a, m are listed as a, m, z. */
  method SortedListingExample() returns (keys: seq<string>)
    ensures keys == ["a", "m", "z"]
  {
    var store := AddAlias(AddAlias(AddAlias(NewStore(), "z", "zulu").0, "a", "alpha").0, "m", "mike").0;
    ListingTestStore(store);
    var entries := ListAliases(store);
    keys := KeysOf(entries);
    var expected := ["a", "m", "z"];
    AscendingAMZ(expected);
    forall x
      ensures x in keys <==> x in expected
    {
      assert x in keys <==> x in store.aliases.Keys;
    }
    AscendingUnique(keys, expected);
  }

  // Alias-name validation.

  const EmptyNameMessage := "Alias name cannot be empty!"
  const InvalidNameMessage := "Alias name can only contain alphanumeric characters, underscores, or hyphens!"

  /** ASCII letters and digits; the wider Unicode class of Rust's
      `char::is_alphanumeric` is not modelled. */
  predicate IsAlphanumeric(c: char) {
    ('a' <= c <= 'z') || ('A' <= c <= 'Z') || ('0' <= c <= '9')
  }

  predicate IsNameChar(c: char) {
    IsAlphanumeric(c) || c == '_' || c == '-'
  }

  /** A non-empty name over letters, digits, `_` and `-`. */
  predicate ValidName(name: string) {
    |name| > 0 && forall i :: 0 <= i < |name| ==> IsNameChar(name[i])
  }

  /** Accepts exactly the valid names; an empty name and a name with another
      character are refused with their own messages. */
  method ValidateAliasName(name: string) returns (r: Result<()>)
    ensures r.Ok? <==> ValidName(name)
    ensures name == [] ==> r == Err(EmptyNameMessage)
    ensures name != [] && r.Err? ==> r == Err(InvalidNameMessage)
  {
    if name == [] {
      return Err(EmptyNameMessage);
    }
    var i := 0;
    while i < |name|
      invariant 0 <= i <= |name|
      invariant forall j :: 0 <= j < i ==> IsNameChar(name[j])
    {
      if !IsNameChar(name[i]) {
        return Err(InvalidNameMessage);
      }
      i := i + 1;
    }
    return Ok(());
  }

  /** A valid name holds no blank, newline, quote, backslash, `=`, `$` or `;`. */
  lemma ValidNamesAreShellSafe(name: string)
    requires ValidName(name)
    ensures ' ' !in name && '\t' !in name && '\n' !in name
    ensures '\'' !in name && '"' !in name && '\\' !in name && '=' !in name && '$' !in name && ';' !in name
  {
  }

  /** A `-` is allowed anywhere, first position included. */
  lemma LeadingHyphenIsValid()
    ensures ValidName("-x")
  {
  }

  /** The names the tests accept and refuse. */
  lemma NameExamples()
    ensures ValidName("gs") && ValidName("my-alias") && ValidName("my_alias") && ValidName("alias123")
    ensures !ValidName("") && !ValidName("has space") && !ValidName("has!bang") && !ValidName("a/b")
  {
    assert !IsNameChar("has space"[3]);
    assert !IsNameChar("has!bang"[3]);
    assert !IsNameChar("a/b"[1]);
  }

  /** Where the store lives: a custom path as given, else `home/.akash/aliases.json`. */
  function StorePath(customPath: Option<Path>, home: Option<Path>): (r: Result<Path>)
    ensures customPath.Some? ==> r == Ok(customPath.value)
    ensures customPath.None? ==> (r.Ok? <==> home.Some?)
    ensures customPath.None? && r.Err? ==> r.message == HomeUnknownMessage
    ensures customPath.None? && r.Ok? ==> r.value.parts == home.value.parts + [".akash", "aliases.json"]
  {
    match customPath
    case Some(p) => Ok(p)
    case None => UnderHome(home, [".akash", "aliases.json"])
  }
}
