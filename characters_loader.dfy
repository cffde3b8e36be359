/**
 * Loading of CK3 characters into the character collection: every parsed
 * character history with at least one dated birth entry is added to the
 * collection (replacing any character stored under the same id) and
 * recorded; once all entries are in, the children cache of the parents of
 * every recorded character is updated, one recorded character at a time.
 */
module CharactersLoader {
  type CharacterId = string
  type Date = int

  /** One parsed character history: its id and the dates of the entries of
      its `birth` history field. */
  datatype CharacterEntry = CharacterEntry(id: CharacterId, birthDates: set<Date>)

  /** The acceptance test: the `birth` field holds at least one dated entry. */
  predicate HasBirthDate(e: CharacterEntry)
  {
    e.birthDates != {}
  }

  /** The accepted entries, in parsing order, duplicates of an id included. */
  function Accepted(es: seq<CharacterEntry>): (r: seq<CharacterEntry>)
    ensures |r| <= |es|
    ensures forall e :: e in r <==> e in es && HasBirthDate(e)
  {
    if es == [] then []
    else
      var e := es[|es| - 1];
      Accepted(es[..|es| - 1]) + (if HasBirthDate(e) then [e] else [])
  }

  /** The ids of the accepted entries. */
  function AcceptedIds(es: seq<CharacterEntry>): set<CharacterId>
  {
    set e | e in es && HasBirthDate(e) :: e.id
  }

  /** The collection, as a map from id to entry, after the entries `es` are
      processed in order on top of `m`: each accepted entry is stored under
      its id, replacing what was there; a rejected one changes nothing. */
  function Stored(m: map<CharacterId, CharacterEntry>, es: seq<CharacterEntry>): map<CharacterId, CharacterEntry>
  {
    if es == [] then m
    else
      var e := es[|es| - 1];
      var before := Stored(m, es[..|es| - 1]);
      if HasBirthDate(e) then before[e.id := e] else before
  }

  /** Accepted ids are unique up to equal entries: two accepted entries with
      the same id are the same entry. */
  predicate UniqueIds(es: seq<CharacterEntry>)
  {
    forall e1, e2 :: e1 in es && e2 in es && HasBirthDate(e1) && HasBirthDate(e2) && e1.id == e2.id ==> e1 == e2
  }

  /** Filtering respects concatenation, so the recorded list keeps the
      parsing order. */
  lemma {:induction false} AcceptedAppend(a: seq<CharacterEntry>, b: seq<CharacterEntry>)
    ensures Accepted(a + b) == Accepted(a) + Accepted(b)
    decreases |b|
  {
    if b != [] {
      var b' := b[..|b| - 1];
      assert (a + b)[..|a + b| - 1] == a + b';
      AcceptedAppend(a, b');
    } else {
      assert a + b == a;
    }
  }

  /** What the collection holds after loading: the previous ids plus the
      accepted ids; an id no accepted entry names keeps its entry; an id
      some accepted entry names holds one of the accepted entries with that
      id. So a rejected entry is never stored. */
  lemma {:induction false} StoredContents(m: map<CharacterId, CharacterEntry>, es: seq<CharacterEntry>)
    ensures Stored(m, es).Keys == m.Keys + AcceptedIds(es)
    ensures forall id :: id in Stored(m, es) && id !in AcceptedIds(es) ==> Stored(m, es)[id] == m[id]
    ensures forall id :: id in Stored(m, es) && id in AcceptedIds(es) ==>
      Stored(m, es)[id] in es && HasBirthDate(Stored(m, es)[id]) && Stored(m, es)[id].id == id
  {
    if es != [] {
      var es' := es[..|es| - 1];
      var e := es[|es| - 1];
      StoredContents(m, es');
      assert es == es' + [e];
      assert forall x :: x in es <==> x in es' || x == e;
      assert AcceptedIds(es) == AcceptedIds(es') + (if HasBirthDate(e) then {e.id} else {});
    }
  }

  /** Loading two batches in turn is loading them together. */
  lemma {:induction false} StoredAppend(m: map<CharacterId, CharacterEntry>, a: seq<CharacterEntry>, b: seq<CharacterEntry>)
    ensures Stored(m, a + b) == Stored(Stored(m, a), b)
    decreases |b|
  {
    if b == [] {
      assert a + b == a;
    } else {
      var b' := b[..|b| - 1];
      assert (a + b)[..|a + b| - 1] == a + b';
      assert (a + b)[|a + b| - 1] == b[|b| - 1];
      StoredAppend(m, a, b');
    }
  }

  /** Add-or-replace: the last accepted entry with an id is the one stored
      under it, whatever entries with other ids follow it. */
  lemma LastAcceptedWins(m: map<CharacterId, CharacterEntry>, a: seq<CharacterEntry>, e: CharacterEntry,
                         b: seq<CharacterEntry>)
    requires HasBirthDate(e)
    requires forall x :: x in b && HasBirthDate(x) ==> x.id != e.id
    ensures e.id in Stored(m, a + [e] + b) && Stored(m, a + [e] + b)[e.id] == e
  {
    assert (a + [e])[..|a|] == a;
    StoredAppend(m, a + [e], b);
    StoredContents(Stored(m, a + [e]), b);
    assert e.id !in AcceptedIds(b);
  }

  /** Rejected entries can be dropped beforehand without changing the
      outcome: loading only depends on the accepted entries. */
  lemma {:induction false} StoredOnlyAccepted(m: map<CharacterId, CharacterEntry>, es: seq<CharacterEntry>)
    ensures Stored(m, es) == Stored(m, Accepted(es))
  {
    if es != [] {
      var es' := es[..|es| - 1];
      var e := es[|es| - 1];
      StoredOnlyAccepted(m, es');
      if HasBirthDate(e) {
        var a := Accepted(es') + [e];
        assert a[..|a| - 1] == Accepted(es');
      } else {
        assert Accepted(es) == Accepted(es') + [];
        assert Accepted(es') + [] == Accepted(es');
      }
    }
  }

  /** With unique accepted ids, every accepted entry ends up stored under
      its id. */
  lemma StoredHoldsAccepted(m: map<CharacterId, CharacterEntry>, es: seq<CharacterEntry>, e: CharacterEntry)
    requires UniqueIds(es)
    requires e in es && HasBirthDate(e)
    ensures e.id in Stored(m, es) && Stored(m, es)[e.id] == e
  {
    StoredContents(m, es);
    assert e.id in AcceptedIds(es);
  }

  /** With unique accepted ids, the outcome is the same whatever order the
      entries are processed in (the game folder is parsed in parallel). */
  lemma OrderIndependent(m: map<CharacterId, CharacterEntry>, es: seq<CharacterEntry>, es': seq<CharacterEntry>)
    requires multiset(es) == multiset(es')
    requires UniqueIds(es)
    ensures Stored(m, es) == Stored(m, es')
  {
    assert forall x :: x in es <==> x in es' by {
      forall x ensures x in es <==> x in es' {
        assert x in es <==> x in multiset(es);
        assert x in es' <==> x in multiset(es');
      }
    }
    assert AcceptedIds(es) == AcceptedIds(es');
    StoredContents(m, es);
    StoredContents(m, es');
    var s, s' := Stored(m, es), Stored(m, es');
    forall id | id in s
      ensures s[id] == s'[id]
    {
      if id in AcceptedIds(es) {
        assert s[id] in es && s'[id] in es;
      }
    }
  }

  /** A character: the entity built from one parsed history. */
  class Character {
    const id: CharacterId
    const birthDates: set<Date>

    constructor (entry: CharacterEntry)
      ensures id == entry.id && birthDates == entry.birthDates
    {
      id := entry.id;
      birthDates := entry.birthDates;
    }

    /** The character as a parsed entry. */
    function Entry(): CharacterEntry
    {
      CharacterEntry(id, birthDates)
    }
  }

  /** The entries of a list of characters. */
  function EntriesOf(cs: seq<Character>): (r: seq<CharacterEntry>)
    ensures |r| == |cs| && forall i :: 0 <= i < |cs| ==> r[i] == cs[i].Entry()
  {
    if cs == [] then [] else EntriesOf(cs[..|cs| - 1]) + [cs[|cs| - 1].Entry()]
  }

  /** A map of characters as a map from id to entry. */
  function EntriesOfMap(cs: map<CharacterId, Character>): map<CharacterId, CharacterEntry>
  {
    map id | id in cs :: cs[id].Entry()
  }

  /** Storing a character stores its entry. */
  lemma EntriesOfMapUpdate(cs: map<CharacterId, Character>, c: Character)
    ensures EntriesOfMap(cs[c.id := c]) == EntriesOfMap(cs)[c.id := c.Entry()]
  {
  }

  /** The calls made on the collection, in order. */
  datatype Event = Added(c: Character) | CacheUpdated(c: Character)

  function AddedEvents(cs: seq<Character>): (r: seq<Event>)
    ensures |r| == |cs| && forall i :: 0 <= i < |cs| ==> r[i] == Added(cs[i])
  {
    if cs == [] then [] else AddedEvents(cs[..|cs| - 1]) + [Added(cs[|cs| - 1])]
  }

  function CacheEvents(cs: seq<Character>): (r: seq<Event>)
    ensures |r| == |cs| && forall i :: 0 <= i < |cs| ==> r[i] == CacheUpdated(cs[i])
  {
    if cs == [] then [] else CacheEvents(cs[..|cs| - 1]) + [CacheUpdated(cs[|cs| - 1])]
  }

  /** The targets of the children-cache updates in a log, in order. */
  function CacheTargets(log: seq<Event>): seq<Character>
  {
    if log == [] then []
    else CacheTargets(log[..|log| - 1]) + (if log[|log| - 1].CacheUpdated? then [log[|log| - 1].c] else [])
  }

  /** The calls a load with recorded characters `cs` makes: every addition
      first, then the cache updates. */
  function LoadLog(cs: seq<Character>): seq<Event>
  {
    AddedEvents(cs) + CacheEvents(cs)
  }

  lemma {:induction false} CacheTargetsAppend(a: seq<Event>, b: seq<Event>)
    ensures CacheTargets(a + b) == CacheTargets(a) + CacheTargets(b)
    decreases |b|
  {
    if b == [] {
      assert a + b == a;
    } else {
      var b' := b[..|b| - 1];
      assert (a + b)[..|a + b| - 1] == a + b';
      CacheTargetsAppend(a, b');
    }
  }

  lemma {:induction false} CacheTargetsOfAdded(cs: seq<Character>)
    ensures CacheTargets(AddedEvents(cs)) == []
  {
    if cs != [] {
      var r := AddedEvents(cs);
      assert r[..|r| - 1] == AddedEvents(cs[..|cs| - 1]);
      CacheTargetsOfAdded(cs[..|cs| - 1]);
    }
  }

  lemma {:induction false} CacheTargetsOfCache(cs: seq<Character>)
    ensures CacheTargets(CacheEvents(cs)) == cs
  {
    if cs != [] {
      var r := CacheEvents(cs);
      assert r[..|r| - 1] == CacheEvents(cs[..|cs| - 1]);
      CacheTargetsOfCache(cs[..|cs| - 1]);
    }
  }

  /** A load's calls: no children-cache update comes before an addition,
      and the cache is updated exactly once per recorded character, in
      recording order. */
  lemma LoadLogOrder(cs: seq<Character>)
    ensures forall i, j :: 0 <= i < j < |LoadLog(cs)| && LoadLog(cs)[j].Added? ==> LoadLog(cs)[i].Added?
    ensures CacheTargets(LoadLog(cs)) == cs
  {
    CacheTargetsAppend(AddedEvents(cs), CacheEvents(cs));
    CacheTargetsOfAdded(cs);
    CacheTargetsOfCache(cs);
  }

  /** The state of the parsing pass after the first `i` entries, starting
      from the collection `characters0` and the log `log0`: the collection
      holds what loading those entries stores, `loaded` records exactly the
      accepted ones, every stored character was there before or is
      recorded, and the log holds one addition per recorded character. */
  ghost predicate ParsedSoFar(characters: map<CharacterId, Character>, log: seq<Event>,
                              entries: seq<CharacterEntry>, i: nat,
                              characters0: map<CharacterId, Character>, log0: seq<Event>,
                              loaded: seq<Character>)
  {
    && i <= |entries|
    && (forall id :: id in characters ==> characters[id].id == id)
    && EntriesOfMap(characters) == Stored(EntriesOfMap(characters0), entries[..i])
    && EntriesOf(loaded) == Accepted(entries[..i])
    && (forall id :: id in characters ==>
         (id in characters0 && characters[id] == characters0[id]) || characters[id] in loaded)
    && log == log0 + AddedEvents(loaded)
  }

  /** Running the handler on an accepted entry keeps the parsing state. */
  lemma ParsedAccepted(characters: map<CharacterId, Character>, log: seq<Event>,
                       entries: seq<CharacterEntry>, i: nat,
                       characters0: map<CharacterId, Character>, log0: seq<Event>,
                       loaded: seq<Character>, character: Character)
    requires ParsedSoFar(characters, log, entries, i, characters0, log0, loaded)
    requires i < |entries| && character.Entry() == entries[i] && HasBirthDate(entries[i])
    ensures ParsedSoFar(characters[character.id := character], log + [Added(character)],
                        entries, i + 1, characters0, log0, loaded + [character])
  {
    SnocUnfolds(entries, i, EntriesOfMap(characters0), loaded, character);
    EntriesOfMapUpdate(characters, character);
  }

  /** How the functions of the parsing state unfold on one more entry and one
      more recorded character. */
  lemma SnocUnfolds(entries: seq<CharacterEntry>, i: nat, m: map<CharacterId, CharacterEntry>,
                    loaded: seq<Character>, character: Character)
    requires i < |entries|
    ensures HasBirthDate(entries[i]) ==> Stored(m, entries[..i + 1]) == Stored(m, entries[..i])[entries[i].id := entries[i]]
    ensures HasBirthDate(entries[i]) ==> Accepted(entries[..i + 1]) == Accepted(entries[..i]) + [entries[i]]
    ensures EntriesOf(loaded + [character]) == EntriesOf(loaded) + [character.Entry()]
    ensures AddedEvents(loaded + [character]) == AddedEvents(loaded) + [Added(character)]
  {
    assert entries[..i + 1][..i] == entries[..i];
    var l := loaded + [character];
    assert l[..|l| - 1] == loaded;
  }

  /** Running the handler on a rejected entry keeps the parsing state. */
  lemma ParsedRejected(characters: map<CharacterId, Character>, log: seq<Event>,
                       entries: seq<CharacterEntry>, i: nat,
                       characters0: map<CharacterId, Character>, log0: seq<Event>,
                       loaded: seq<Character>)
    requires ParsedSoFar(characters, log, entries, i, characters0, log0, loaded)
    requires i < |entries| && !HasBirthDate(entries[i])
    ensures ParsedSoFar(characters, log, entries, i + 1, characters0, log0, loaded)
  {
    assert entries[..i + 1] == entries[..i] + [entries[i]];
  }

  /** The character collection, keyed by character id. `log` records the
      additions and the children-cache updates made on it. */
  class CharacterCollection {
    var characters: map<CharacterId, Character>
    ghost var log: seq<Event>

    ghost predicate Valid()
      reads this
    {
      forall id :: id in characters ==> characters[id].id == id
    }

    /** The collection as a map from id to entry. */
    function Entries(): map<CharacterId, CharacterEntry>
      reads this
    {
      EntriesOfMap(characters)
    }

    constructor ()
      ensures Valid() && characters == map[] && log == []
    {
      characters := map[];
      log := [];
    }

    /** Stores `c` under its id, replacing any character already there. */
    method AddOrReplace(c: Character)
      modifies this`characters, this`log
      ensures characters == old(characters)[c.id := c]
      ensures log == old(log) + [Added(c)]
    {
      characters := characters[c.id := c];
      log := log + [Added(c)];
    }

    /** Updates the children cache of the parents of `c`; only the call is
        recorded. */
    method UpdateChildrenCacheOfParents(c: Character)
      modifies this`log
      ensures log == old(log) + [CacheUpdated(c)]
    {
      log := log + [CacheUpdated(c)];
    }

    /** The parser's handler for one character history: builds the
        character and, when it has a dated birth entry, stores and records
        it; otherwise drops it. */
    method ParseCharacter(entry: CharacterEntry) returns (character: Character, accepted: bool)
      requires Valid()
      modifies this`characters, this`log
      ensures Valid()
      ensures fresh(character) && character.Entry() == entry
      ensures accepted == HasBirthDate(entry)
      ensures characters == if accepted then old(characters)[entry.id := character] else old(characters)
      ensures log == old(log) + if accepted then [Added(character)] else []
    {
      character := new Character(entry);
      if character.birthDates == {} {
        accepted := false;
        return;
      }
      AddOrReplace(character);
      accepted := true;
    }

    /** The parsing pass: runs the handler on every entry, in order, and
        returns the recorded characters. */
    method ParseEntries(entries: seq<CharacterEntry>) returns (loaded: seq<Character>)
      requires Valid()
      modifies this`characters, this`log
      ensures Valid()
      ensures Entries() == Stored(old(Entries()), entries)
      ensures EntriesOf(loaded) == Accepted(entries)
      ensures forall c :: c in loaded ==> fresh(c)
      ensures forall id :: id in characters ==>
        (id in old(characters) && characters[id] == old(characters)[id]) || characters[id] in loaded
      ensures log == old(log) + AddedEvents(loaded)
    {
      loaded := [];
      var i := 0;
      assert entries[..0] == [];
      while i < |entries|
        invariant ParsedSoFar(characters, log, entries, i, old(characters), old(log), loaded)
        invariant forall c :: c in loaded ==> fresh(c)
      {
        ghost var before, logBefore := characters, log;
        var character, accepted := ParseCharacter(entries[i]);
        if accepted {
          ParsedAccepted(before, logBefore, entries, i, old(characters), old(log), loaded, character);
          loaded := loaded + [character];
        } else {
          ParsedRejected(before, logBefore, entries, i, old(characters), old(log), loaded);
        }
        i := i + 1;
      }
      assert entries[..i] == entries;
    }

    /** The pass after parsing: one children-cache update per recorded
        character, in recording order. */
    method UpdateCaches(loaded: seq<Character>)
      modifies this`log
      ensures log == old(log) + CacheEvents(loaded)
    {
      var k := 0;
      while k < |loaded|
        invariant 0 <= k <= |loaded|
        invariant log == old(log) + CacheEvents(loaded[..k])
      {
        UpdateChildrenCacheOfParents(loaded[k]);
        assert loaded[..k + 1][..k] == loaded[..k];
        k := k + 1;
      }
      assert loaded[..k] == loaded;
    }

    /** Loads the parsed character histories `entries`; `loaded` is the list
        of recorded characters. */
    method LoadCK3Characters(entries: seq<CharacterEntry>) returns (loaded: seq<Character>)
      requires Valid()
      modifies this`characters, this`log
      ensures Valid()
      ensures Entries() == Stored(old(Entries()), entries)
      ensures EntriesOf(loaded) == Accepted(entries)
      ensures forall c :: c in loaded ==> fresh(c)
      ensures forall id :: id in characters ==>
        (id in old(characters) && characters[id] == old(characters)[id]) || characters[id] in loaded
      ensures log == old(log) + LoadLog(loaded)
    {
      loaded := ParseEntries(entries);
      UpdateCaches(loaded);
    }
  }
}
