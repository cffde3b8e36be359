/**
 * The province collection of the Imperator save and its second-pass linker:
 * registration of provinces by integer id, the restriction of each province's
 * pops to the pops defined globally, and the two-way province/country link.
 */
module Provinces {

  type ProvinceId = nat
  type PopId = nat
  type CountryId = nat

  class Pop {
    const id: PopId

    constructor (id: PopId)
      ensures this.id == id
    {
      this.id := id;
    }
  }

  class Country {
    var provinces: set<Province>

    constructor ()
      ensures provinces == {}
    {
      provinces := {};
    }

    /** Records that a province belongs to this country. */
    method RegisterProvince(province: Province)
      modifies this`provinces
      ensures provinces == old(provinces) + {province}
    {
      provinces := provinces + {province};
    }
  }

  /** What parsing one province block yields: its owner and its pop map. */
  datatype ProvinceData = ProvinceData(owner: CountryId, pops: map<PopId, Pop?>)

  /** One top-level item of the provinces block: its key and the parsed block. */
  datatype ProvinceEntry = ProvinceEntry(key: string, data: ProvinceData)

  class Province {
    const id: ProvinceId
    const owner: CountryId
    var pops: map<PopId, Pop?>
    var country: Country?

    constructor (id: ProvinceId, data: ProvinceData)
      ensures this.id == id && owner == data.owner && pops == data.pops && country == null
    {
      this.id := id;
      owner := data.owner;
      pops := data.pops;
      country := null;
    }

    method SetPops(newPops: map<PopId, Pop?>)
      modifies this`pops
      ensures pops == newPops
    {
      pops := newPops;
    }
  }

  /** Keys the integer matcher accepts: a non-empty run of decimal digits. */
  predicate IsInteger(key: string)
  {
    |key| > 0 && forall k :: 0 <= k < |key| ==> '0' <= key[k] <= '9'
  }

  function DecimalValue(key: string): nat
    requires IsInteger(key)
  {
    var last := (key[|key| - 1] as int - '0' as int) as nat;
    if |key| == 1 then last else 10 * DecimalValue(key[..|key| - 1]) + last
  }

  /** The entry is registered under `id`. */
  predicate NamesId(entry: ProvinceEntry, id: ProvinceId)
  {
    IsInteger(entry.key) && DecimalValue(entry.key) == id
  }

  /** The province map after registering the entries in order: an integer key
      is placed with emplace (a duplicate id keeps the first province); any
      other key is ignored. */
  function Registry(entries: seq<ProvinceEntry>): map<ProvinceId, ProvinceData>
  {
    if entries == [] then map[]
    else
      var m := Registry(entries[..|entries| - 1]);
      var e := entries[|entries| - 1];
      if IsInteger(e.key) && DecimalValue(e.key) !in m then m[DecimalValue(e.key) := e.data] else m
  }

  /** The registered ids are exactly the ids of the integer-keyed entries. */
  lemma {:induction false} RegistryKeys(entries: seq<ProvinceEntry>, id: ProvinceId)
    ensures id in Registry(entries) <==> exists i :: 0 <= i < |entries| && NamesId(entries[i], id)
  {
    if entries != [] {
      var init := entries[..|entries| - 1];
      RegistryKeys(init, id);
      if exists i :: 0 <= i < |entries| && NamesId(entries[i], id) {
        var i :| 0 <= i < |entries| && NamesId(entries[i], id);
        if i < |init| {
          assert init[i] == entries[i];
        }
      }
    }
  }

  /** A duplicate id keeps the first province: the data registered under an id
      is that of the first entry naming it. */
  lemma {:induction false} RegistryFirstWins(entries: seq<ProvinceEntry>, i: nat)
    requires i < |entries| && IsInteger(entries[i].key)
    requires forall j :: 0 <= j < i ==> !NamesId(entries[j], DecimalValue(entries[i].key))
    ensures DecimalValue(entries[i].key) in Registry(entries)
    ensures Registry(entries)[DecimalValue(entries[i].key)] == entries[i].data
  {
    var id := DecimalValue(entries[i].key);
    var init := entries[..|entries| - 1];
    if i < |entries| - 1 {
      assert init[i] == entries[i];
      forall j | 0 <= j < i
        ensures !NamesId(init[j], id)
      {
        assert init[j] == entries[j];
      }
      RegistryFirstWins(init, i);
    } else {
      if id in Registry(init) {
        RegistryKeys(init, id);
        assert false;
      }
    }
  }

  /** A province's pop map after linking: a non-empty map keeps the ids that
      are defined globally, each bound to its global pop; an empty map stays. */
  function LinkedPops(pops: map<PopId, Pop?>, global: map<PopId, Pop>): map<PopId, Pop?>
  {
    if |pops| == 0 then pops else map q | q in pops && q in global :: global[q]
  }

  /** The pop ids of a province that resolve. */
  function ResolvedIds(pops: map<PopId, Pop?>, global: map<PopId, Pop>): set<PopId>
  {
    pops.Keys * global.Keys
  }

  lemma LinkedPopsKeys(pops: map<PopId, Pop?>, global: map<PopId, Pop>)
    ensures |pops| > 0 ==> LinkedPops(pops, global).Keys == ResolvedIds(pops, global)
    ensures |pops| > 0 ==> forall q :: q in LinkedPops(pops, global) ==> LinkedPops(pops, global)[q] == global[q]
    ensures |pops| == 0 ==> LinkedPops(pops, global) == pops
  {
  }

  /** A linked pop map holds one pop per resolved id, so the counter counts the pops linked. */
  lemma LinkedPopsCount(pops: map<PopId, Pop?>, global: map<PopId, Pop>)
    ensures |LinkedPops(pops, global)| == |ResolvedIds(pops, global)|
  {
    if |pops| == 0 {
      assert pops.Keys == {};
      assert ResolvedIds(pops, global) == {};
    } else {
      LinkedPopsKeys(pops, global);
    }
  }

  /** Linking a second time with the same global pops changes nothing. */
  lemma LinkedPopsIdempotent(pops: map<PopId, Pop?>, global: map<PopId, Pop>)
    ensures LinkedPops(LinkedPops(pops, global), global) == LinkedPops(pops, global)
  {
  }

  /** The number of resolved pop ids summed over the first `n` provinces of `ids`. */
  function TotalResolved(popMaps: map<ProvinceId, map<PopId, Pop?>>, global: map<PopId, Pop>,
                         ids: seq<ProvinceId>, n: nat): nat
    requires n <= |ids|
  {
    if n == 0 then 0
    else
      TotalResolved(popMaps, global, ids, n - 1) +
      (if ids[n - 1] in popMaps then |ResolvedIds(popMaps[ids[n - 1]], global)| else 0)
  }

  /** A trigger that holds everywhere: a state predicate guarded by it is
      unfolded only where a proof asks for `Unfold(0)`, which keeps the
      predicate whole in the loops that carry it. */
  ghost predicate Unfold(u: int) { true }

  /** The same for the heap states of the linkers, kept apart so that
      unfolding a heap state does not unfold the value state inside it. */
  ghost predicate UnfoldHeap(u: int) { true }

  /** The state of the pop linker after its first `k` steps over the
      ascending ids `ids`, given the pop maps `before` of the provinces before
      the first step: `m` holds the pop maps, linked at the first `k`
      positions and as before at the others, and `counter` the number of pop
      ids resolved so far. */
  ghost predicate PopsLinked(k: nat, counter: nat, m: map<ProvinceId, map<PopId, Pop?>>,
                             before: map<ProvinceId, map<PopId, Pop?>>, global: map<PopId, Pop>,
                             ids: seq<ProvinceId>)
  {
    && k <= |ids|
    && StrictlyAscending(ids)
    && (forall id :: id in before <==> id in ids)
    && m.Keys == before.Keys
    && (forall j :: 0 <= j < |ids| ==>
          m[ids[j]] == if j < k then LinkedPops(before[ids[j]], global) else before[ids[j]])
    && counter == TotalResolved(before, global, ids, k)
  }


  lemma PopsLinkedStart(before: map<ProvinceId, map<PopId, Pop?>>, global: map<PopId, Pop>, ids: seq<ProvinceId>)
    requires StrictlyAscending(ids) && forall id :: id in before <==> id in ids
    ensures PopsLinked(0, 0, before, before, global, ids)
  {
  }

  /** Linking the province at position `k` advances the state by one position. */
  lemma PopsLinkedStep(k: nat, counter: nat, m: map<ProvinceId, map<PopId, Pop?>>,
                       before: map<ProvinceId, map<PopId, Pop?>>, global: map<PopId, Pop>,
                       ids: seq<ProvinceId>, resolved: nat)
    requires PopsLinked(k, counter, m, before, global, ids) && k < |ids|
    requires ids[k] in m && resolved == |ResolvedIds(m[ids[k]], global)|
    ensures PopsLinked(k + 1, counter + resolved, m[ids[k] := LinkedPops(m[ids[k]], global)], before, global, ids)
  {
    forall j | 0 <= j < |ids| && j != k ensures ids[j] != ids[k] {
      if j < k { assert Below(ids, j, k); } else { assert Below(ids, k, j); }
    }
  }

  /** Once every position is done, every province has its linked pop map. */
  lemma PopsLinkedDone(counter: nat, m: map<ProvinceId, map<PopId, Pop?>>,
                       before: map<ProvinceId, map<PopId, Pop?>>, global: map<PopId, Pop>,
                       ids: seq<ProvinceId>)
    requires PopsLinked(|ids|, counter, m, before, global, ids)
    ensures m.Keys == before.Keys
    ensures forall id :: id in before ==> m[id] == LinkedPops(before[id], global)
    ensures counter == TotalResolved(before, global, ids, |ids|)
  {
    forall id | id in before ensures m[id] == LinkedPops(before[id], global) {
      var j :| 0 <= j < |ids| && ids[j] == id;
    }
  }

  /** A province takes part in the country link when it has pops and its owner is defined. */
  predicate LinksToOwner(pops: map<PopId, Pop?>, owner: CountryId, countries: map<CountryId, Country>)
  {
    |pops| > 0 && owner in countries
  }

  /** The provinces among the first `n` of `ids` that take part in the link with country `c`. */
  function Gained(c: Country, objs: map<ProvinceId, Province>, part: map<ProvinceId, Country>,
                  ids: seq<ProvinceId>, n: nat): set<Province>
    requires n <= |ids|
  {
    if n == 0 then {}
    else
      Gained(c, objs, part, ids, n - 1)
        + if ids[n - 1] in part && ids[n - 1] in objs && part[ids[n - 1]] == c then {objs[ids[n - 1]]} else {}
  }

  /** The number of provinces among the first `n` of `ids` that take part in the link. */
  function CountParts(part: map<ProvinceId, Country>, ids: seq<ProvinceId>, n: nat): nat
    requires n <= |ids|
  {
    if n == 0 then 0 else CountParts(part, ids, n - 1) + if ids[n - 1] in part then 1 else 0
  }

  /** The state of the country linker after its first `k` steps over the
      ascending ids `ids` of the provinces `objs`, where `part` maps each
      province that takes part to its owner: `links` holds the country link of
      every province, set at the first `k` positions that take part and as in
      `linksBefore` elsewhere; `sets` holds the province set of every country,
      grown from `setsBefore` by the provinces it gained so far; and `counter`
      counts the links made. */
  ghost predicate CountriesLinked(k: nat, counter: nat, links: map<ProvinceId, Country?>, sets: map<Country, set<Province>>,
                                  linksBefore: map<ProvinceId, Country?>, setsBefore: map<Country, set<Province>>,
                                  objs: map<ProvinceId, Province>, part: map<ProvinceId, Country>, ids: seq<ProvinceId>)
  {
    forall u {:trigger Unfold(u)} :: Unfold(u) ==>
    && k <= |ids|
    && StrictlyAscending(ids)
    && (forall id :: id in objs <==> id in ids)
    && part.Keys <= objs.Keys
    && (forall id :: id in part ==> part[id] in setsBefore)
    && links.Keys == linksBefore.Keys == objs.Keys
    && (forall j :: 0 <= j < |ids| ==>
          links[ids[j]] == if j < k && ids[j] in part then part[ids[j]] else linksBefore[ids[j]])
    && sets.Keys == setsBefore.Keys
    && (forall c :: c in sets ==> sets[c] == setsBefore[c] + Gained(c, objs, part, ids, k))
    && counter == CountParts(part, ids, k)
  }

  lemma CountriesLinkedStart(linksBefore: map<ProvinceId, Country?>, setsBefore: map<Country, set<Province>>,
                             objs: map<ProvinceId, Province>, part: map<ProvinceId, Country>, ids: seq<ProvinceId>)
    requires StrictlyAscending(ids) && (forall id :: id in objs <==> id in ids)
    requires part.Keys <= objs.Keys && (forall id :: id in part ==> part[id] in setsBefore)
    requires linksBefore.Keys == objs.Keys
    ensures CountriesLinked(0, 0, linksBefore, setsBefore, linksBefore, setsBefore, objs, part, ids)
  {
    assert Unfold(0);
  }

  /** Linking the province at position `k` advances the state by one position. */
  lemma CountriesLinkedStep(k: nat, counter: nat, links: map<ProvinceId, Country?>, sets: map<Country, set<Province>>,
                            linksBefore: map<ProvinceId, Country?>, setsBefore: map<Country, set<Province>>,
                            objs: map<ProvinceId, Province>, part: map<ProvinceId, Country>, ids: seq<ProvinceId>)
    requires CountriesLinked(k, counter, links, sets, linksBefore, setsBefore, objs, part, ids) && k < |ids|
    ensures ids[k] in objs && (ids[k] in part ==> part[ids[k]] in sets)
    ensures ids[k] in part ==>
              CountriesLinked(k + 1, counter + 1, links[ids[k] := part[ids[k]]],
                              sets[part[ids[k]] := sets[part[ids[k]]] + {objs[ids[k]]}],
                              linksBefore, setsBefore, objs, part, ids)
    ensures ids[k] !in part ==> CountriesLinked(k + 1, counter, links, sets, linksBefore, setsBefore, objs, part, ids)
  {
    assert Unfold(0);
    forall j | 0 <= j < |ids| && j != k ensures ids[j] != ids[k] {
      if j < k { assert Below(ids, j, k); } else { assert Below(ids, k, j); }
    }
  }

  /** Along distinct ids, the provinces gained by `c` are those that take part and map to `c`. */
  lemma {:induction false} GainedIsSet(c: Country, objs: map<ProvinceId, Province>, part: map<ProvinceId, Country>,
                                       ids: seq<ProvinceId>, n: nat)
    requires n <= |ids| && part.Keys <= objs.Keys
    ensures Gained(c, objs, part, ids, n) == set id: ProvinceId | id in ids[..n] && id in part && part[id] == c :: objs[id]
  {
    if n > 0 {
      GainedIsSet(c, objs, part, ids, n - 1);
      assert ids[..n] == ids[..n - 1] + [ids[n - 1]];
    }
  }

  /** Along distinct ids, counting positions counts the provinces that take part. */
  lemma {:induction false} CountPartsIsCardinality(part: map<ProvinceId, Country>, ids: seq<ProvinceId>, n: nat)
    requires StrictlyAscending(ids) && n <= |ids|
    ensures CountParts(part, ids, n) == |set id: ProvinceId | id in ids[..n] && id in part|
  {
    if n > 0 {
      CountPartsIsCardinality(part, ids, n - 1);
      var last := ids[n - 1];
      assert ids[..n] == ids[..n - 1] + [last];
      forall j | 0 <= j < n - 1 ensures ids[j] != last {
        assert Below(ids, j, n - 1);
      }
      var before := set id: ProvinceId | id in ids[..n - 1] && id in part;
      var after := set id: ProvinceId | id in ids[..n] && id in part;
      forall id ensures id in after <==> id in before || (id == last && last in part) {
        assert id in ids[..n] <==> id in ids[..n - 1] || id == last;
      }
      if last in part {
        assert after == before + {last};
      } else {
        assert after == before;
      }
    }
  }

  /** Counting all positions of distinct ids counts every province that takes part. */
  lemma CountPartsAll(part: map<ProvinceId, Country>, ids: seq<ProvinceId>)
    requires StrictlyAscending(ids) && forall id :: id in part ==> id in ids
    ensures CountParts(part, ids, |ids|) == |part.Keys|
  {
    CountPartsIsCardinality(part, ids, |ids|);
    assert ids[..|ids|] == ids;
    assert part.Keys == set id: ProvinceId | id in ids[..|ids|] && id in part;
  }

  /** After the last step every province that takes part is linked to its
      owner and every other keeps its link. */
  lemma CountriesLinkedLinks(counter: nat, links: map<ProvinceId, Country?>, sets: map<Country, set<Province>>,
                             linksBefore: map<ProvinceId, Country?>, setsBefore: map<Country, set<Province>>,
                             objs: map<ProvinceId, Province>, part: map<ProvinceId, Country>, ids: seq<ProvinceId>)
    requires CountriesLinked(|ids|, counter, links, sets, linksBefore, setsBefore, objs, part, ids)
    ensures links.Keys == linksBefore.Keys == objs.Keys && part.Keys <= objs.Keys
    ensures forall id :: id in objs ==> links[id] == if id in part then part[id] else linksBefore[id]
  {
    assert Unfold(0);
    forall id | id in objs ensures links[id] == if id in part then part[id] else linksBefore[id] {
      var j :| 0 <= j < |ids| && ids[j] == id;
    }
  }

  /** After the last step every country has gained exactly its provinces that take part. */
  lemma CountriesLinkedSets(counter: nat, links: map<ProvinceId, Country?>, sets: map<Country, set<Province>>,
                            linksBefore: map<ProvinceId, Country?>, setsBefore: map<Country, set<Province>>,
                            objs: map<ProvinceId, Province>, part: map<ProvinceId, Country>, ids: seq<ProvinceId>)
    requires CountriesLinked(|ids|, counter, links, sets, linksBefore, setsBefore, objs, part, ids)
    ensures sets.Keys == setsBefore.Keys && part.Keys <= objs.Keys
    ensures forall c :: c in sets ==> sets[c] == setsBefore[c] + set id: ProvinceId | id in part && part[id] == c :: objs[id]
    ensures forall id :: id in part ==> part[id] in sets && objs[id] in sets[part[id]]
  {
    assert Unfold(0);
    assert ids[..|ids|] == ids;
    forall c | c in sets ensures sets[c] == setsBefore[c] + set id: ProvinceId | id in part && part[id] == c :: objs[id] {
      GainedIsSet(c, objs, part, ids, |ids|);
    }
  }

  /** After the last step the counter counts the provinces that take part. */
  lemma CountriesLinkedCount(counter: nat, links: map<ProvinceId, Country?>, sets: map<Country, set<Province>>,
                             linksBefore: map<ProvinceId, Country?>, setsBefore: map<Country, set<Province>>,
                             objs: map<ProvinceId, Province>, part: map<ProvinceId, Country>, ids: seq<ProvinceId>)
    requires CountriesLinked(|ids|, counter, links, sets, linksBefore, setsBefore, objs, part, ids)
    ensures counter == |part.Keys|
  {
    assert Unfold(0);
    CountPartsAll(part, ids);
  }

  ghost predicate Below(s: seq<ProvinceId>, i: int, j: int)
  {
    0 <= i < |s| && 0 <= j < |s| && s[i] < s[j]
  }

  ghost predicate StrictlyAscending(s: seq<ProvinceId>)
  {
    forall i, j {:trigger Below(s, i, j)} :: 0 <= i < j < |s| ==> Below(s, i, j)
  }

  /** Inserts a new key into an ascending key sequence. */
  function InsertAscending(s: seq<ProvinceId>, x: ProvinceId): seq<ProvinceId>
  {
    if s == [] || x < s[0] then [x] + s else [s[0]] + InsertAscending(s[1..], x)
  }

  lemma {:induction false} InsertAscendingKeeps(s: seq<ProvinceId>, x: ProvinceId)
    requires StrictlyAscending(s) && x !in s
    ensures StrictlyAscending(InsertAscending(s, x))
    ensures forall y :: y in InsertAscending(s, x) <==> y in s || y == x
  {
    var r := InsertAscending(s, x);
    if s == [] || x < s[0] {
      forall i, j | 0 <= i < j < |r| ensures Below(r, i, j) {
        if i == 0 {
          if j > 1 { assert Below(s, 0, j - 1); }
        } else {
          assert Below(s, i - 1, j - 1);
        }
      }
    } else {
      var t := s[1..];
      forall i, j | 0 <= i < j < |t| ensures Below(t, i, j) {
        assert Below(s, i + 1, j + 1);
      }
      InsertAscendingKeeps(t, x);
      var rt := InsertAscending(t, x);
      forall i, j | 0 <= i < j < |r| ensures Below(r, i, j) {
        if i == 0 {
          assert rt[j - 1] in rt;
          if rt[j - 1] != x {
            var m :| 0 <= m < |t| && t[m] == rt[j - 1];
            assert Below(s, 0, m + 1);
          }
        } else {
          assert Below(rt, i - 1, j - 1);
        }
      }
      assert s == [s[0]] + t;
    }
  }

  /** The inner loop of the pop linker: collects the resolved pops of one
      province by insertion, counting each. */
  method ResolvePops(pops: map<PopId, Pop?>, global: map<PopId, Pop>) returns (newPops: map<PopId, Pop?>, resolved: nat)
    ensures newPops.Keys == ResolvedIds(pops, global)
    ensures forall q :: q in newPops ==> newPops[q] == global[q]
    ensures resolved == |ResolvedIds(pops, global)|
  {
    newPops, resolved := map[], 0;
    var rest := pops.Keys;
    while rest != {}
      invariant rest <= pops.Keys
      invariant forall q :: q in newPops <==> q in pops && q !in rest && q in global
      invariant forall q :: q in newPops ==> newPops[q] == global[q]
      invariant resolved == |newPops|
      decreases rest
    {
      var popId :| popId in rest;
      if popId in global {
        assert popId !in newPops;
        newPops := newPops[popId := global[popId]];
        resolved := resolved + 1;
      }
      rest := rest - {popId};
    }
    assert newPops.Keys == ResolvedIds(pops, global);
  }

  /** One iteration of the pop linker: a province with pops gets the map of
      its resolved pops. */
  method LinkProvincePops(province: Province, thePops: map<PopId, Pop>) returns (resolved: nat)
    modifies province`pops
    ensures province.pops == LinkedPops(old(province.pops), thePops)
    ensures resolved == |ResolvedIds(old(province.pops), thePops)|
  {
    if |province.pops| > 0 {
      var newPops;
      newPops, resolved := ResolvePops(province.pops, thePops);
      province.SetPops(newPops);
    } else {
      resolved := 0;
    }
  }

  class Provinces {
    var provinces: map<ProvinceId, Province>
    /** The province ids in ascending order: the iteration order of the map. */
    var ids: seq<ProvinceId>

    /** Each province is stored under its own id, and `ids` lists the ids in ascending order. */
    ghost predicate Valid()
      reads this
    {
      && (forall id :: id in provinces ==> provinces[id].id == id)
      && (forall id :: id in provinces <==> id in ids)
      && StrictlyAscending(ids)
    }

    /** The owner and pop map of every province, as values. */
    ghost function Data(): map<ProvinceId, ProvinceData>
      reads this, provinces.Values
    {
      map id | id in provinces :: ProvinceData(provinces[id].owner, provinces[id].pops)
    }

    ghost function PopMaps(): map<ProvinceId, map<PopId, Pop?>>
      reads this, provinces.Values`pops
    {
      map id | id in provinces :: provinces[id].pops
    }

    /** The province `id` takes part in the country link: it has pops and its owner is defined. */
    ghost predicate Linkable(id: ProvinceId, countries: map<CountryId, Country>)
      reads this, provinces.Values`pops
    {
      id in provinces && LinksToOwner(provinces[id].pops, provinces[id].owner, countries)
    }

    /** Parses the provinces block: every entry is given to the registration handler in turn. */
    constructor (entries: seq<ProvinceEntry>)
      ensures Valid() && Data() == Registry(entries)
      ensures forall id :: id in provinces ==> fresh(provinces[id]) && provinces[id].country == null
    {
      provinces := map[];
      ids := [];
      new;
      for k := 0 to |entries|
        invariant Valid() && Data() == Registry(entries[..k])
        invariant forall id :: id in provinces ==> fresh(provinces[id]) && provinces[id].country == null
      {
        assert entries[..k + 1][..k] == entries[..k];
        RegisterEntry(entries[k]);
      }
      assert entries[..|entries|] == entries;
    }

    /** The integer-key handler: builds the province and emplaces it under its id. */
    method RegisterEntry(entry: ProvinceEntry)
      requires Valid()
      modifies this`provinces, this`ids
      ensures Valid()
      ensures Data() == (if IsInteger(entry.key) && DecimalValue(entry.key) !in old(Data())
                         then old(Data())[DecimalValue(entry.key) := entry.data] else old(Data()))
      ensures forall id :: id in provinces ==> id in old(provinces) || (fresh(provinces[id]) && provinces[id].country == null)
      ensures forall id :: id in old(provinces) ==> id in provinces && provinces[id] == old(provinces[id])
    {
      if IsInteger(entry.key) {
        var id := DecimalValue(entry.key);
        var province := new Province(id, entry.data);
        if id !in provinces {
          InsertAscendingKeeps(ids, id);
          provinces := provinces[id := province];
          ids := InsertAscending(ids, id);
        }
      }
    }

    /** One step of the pop linker: links the pops of the province at position `k`. */
    method LinkPopsAt(k: nat, province: Province, thePops: map<PopId, Pop>) returns (resolved: nat)
      requires Valid() && k < |ids| && province == provinces[ids[k]]
      modifies province`pops
      ensures PopMaps() == old(PopMaps())[ids[k] := LinkedPops(old(PopMaps())[ids[k]], thePops)]
      ensures resolved == |ResolvedIds(old(PopMaps())[ids[k]], thePops)|
    {
      resolved := LinkProvincePops(province, thePops);
    }

    /** The heap state of the pop linker after its first `k` steps: the pop
        maps of the provinces are `m`, in the state `PopsLinked` describes. */
    ghost predicate PopLinkState(k: nat, counter: nat, thePops: map<PopId, Pop>,
                                 m: map<ProvinceId, map<PopId, Pop?>>, before: map<ProvinceId, map<PopId, Pop?>>)
      reads this, provinces.Values`pops
    {
      forall u {:trigger UnfoldHeap(u)} :: UnfoldHeap(u) ==>
      && Valid() && PopMaps() == m
      && PopsLinked(k, counter, m, before, thePops, ids)
    }

    /** The pop linker starts in its state for no steps. */
    lemma PopLinkStateStart(thePops: map<PopId, Pop>)
      requires Valid()
      ensures PopLinkState(0, 0, thePops, PopMaps(), PopMaps())
    {
      PopsLinkedStart(PopMaps(), thePops, ids);
    }

    /** The step of the pop linker at position `k`, on the whole linker state. */
    method LinkPopsNext(k: nat, thePops: map<PopId, Pop>, counter: nat,
                        ghost m: map<ProvinceId, map<PopId, Pop?>>, ghost before: map<ProvinceId, map<PopId, Pop?>>)
      returns (counter': nat, ghost m': map<ProvinceId, map<PopId, Pop?>>)
      requires k < |ids| && PopLinkState(k, counter, thePops, m, before)
      modifies provinces.Values`pops
      ensures PopLinkState(k + 1, counter', thePops, m', before)
    {
      assert UnfoldHeap(0);
      var resolved := LinkPopsAt(k, provinces[ids[k]], thePops);
      PopsLinkedStep(k, counter, m, before, thePops, ids, resolved);
      m' := m[ids[k] := LinkedPops(m[ids[k]], thePops)];
      counter' := counter + resolved;
    }

    /** The loop of the pop linker, starting from the pop maps `before` and
        ending with the pop maps `m`. */
    method LinkPopsLoop(thePops: map<PopId, Pop>, ghost before: map<ProvinceId, map<PopId, Pop?>>)
      returns (counter: nat, ghost m: map<ProvinceId, map<PopId, Pop?>>)
      requires PopLinkState(0, 0, thePops, before, before)
      modifies provinces.Values`pops
      ensures PopLinkState(|ids|, counter, thePops, m, before)
    {
      m := before;
      counter := 0;
      var k := 0;
      while k < |ids|
        invariant k <= |ids|
        invariant PopLinkState(k, counter, thePops, m, before)
      {
        counter, m := LinkPopsNext(k, thePops, counter, m, before);
        k := k + 1;
      }
    }

    /** Restricts the pop map of every province that has pops to the pops
        defined globally, binding each to the global pop; returns how many pop
        ids were resolved over all provinces. */
    method LinkPops(thePops: map<PopId, Pop>) returns (counter: nat)
      requires Valid()
      modifies provinces.Values`pops
      ensures forall id :: id in provinces ==> provinces[id].pops == LinkedPops(old(provinces[id].pops), thePops)
      ensures counter == TotalResolved(old(PopMaps()), thePops, ids, |ids|)
    {
      PopLinkStateStart(thePops);
      ghost var m;
      counter, m := LinkPopsLoop(thePops, PopMaps());
      assert UnfoldHeap(0);
      PopsLinkedDone(counter, m, old(PopMaps()), thePops, ids);
      forall id | id in provinces ensures provinces[id].pops == LinkedPops(old(provinces[id].pops), thePops) {
        assert PopMaps()[id] == m[id] && old(PopMaps())[id] == old(provinces[id].pops);
      }
    }

    /** The links of the provinces, as values. */
    ghost function CountryLinks(): map<ProvinceId, Country?>
      reads this, provinces.Values`country
    {
      map id | id in provinces :: provinces[id].country
    }

    /** The province sets of the countries, as values. */
    static ghost function ProvinceSets(countries: map<CountryId, Country>): map<Country, set<Province>>
      reads countries.Values`provinces
    {
      map c | c in countries.Values :: c.provinces
    }

    /** The country each province that takes part in the link is linked to: its owner. */
    ghost function Owners(countries: map<CountryId, Country>): map<ProvinceId, Country>
      reads this, provinces.Values`pops
    {
      map id | id in provinces && Linkable(id, countries) :: countries[provinces[id].owner]
    }

    /** A province takes part in the link exactly when it has pops and its
        owner is defined; a province without pops never does, whatever its
        owner. */
    lemma OwnersTakePart(countries: map<CountryId, Country>)
      ensures forall id :: id in Owners(countries) <==>
                id in provinces && |provinces[id].pops| > 0 && provinces[id].owner in countries
      ensures forall id :: id in Owners(countries) ==> Owners(countries)[id] == countries[provinces[id].owner]
      ensures forall id :: id in provinces && |provinces[id].pops| == 0 ==> id !in Owners(countries)
    {
    }

    /** One step of the country linker: links the province at position `k`
        to its owner, both ways, when it has pops and the owner is defined. */
    method LinkCountriesAt(k: nat, province: Province, theCountries: map<CountryId, Country>, counter: nat,
                           ghost part: map<ProvinceId, Country>)
      returns (counter': nat)
      requires Valid() && k < |ids| && province == provinces[ids[k]] && part == Owners(theCountries)
      modifies province`country, theCountries.Values`provinces
      ensures CountryLinks() == if ids[k] in part then old(CountryLinks())[ids[k] := part[ids[k]]] else old(CountryLinks())
      ensures ProvinceSets(theCountries) ==
                if ids[k] in part
                then old(ProvinceSets(theCountries))[part[ids[k]] := old(ProvinceSets(theCountries))[part[ids[k]]] + {province}]
                else old(ProvinceSets(theCountries))
      ensures counter' == counter + if ids[k] in part then 1 else 0
    {
      counter' := counter;
      if |province.pops| > 0 {
        if province.owner in theCountries {
          var country := theCountries[province.owner];
          // link both ways
          province.country := country;
          country.RegisterProvince(province);
          counter' := counter + 1;
        }
      }
    }

    /** The heap state of the country linker after its first `k` steps: the
        links and the province sets are `links` and `sets`, and together with
        the ids and objects of the provinces they are in the state
        `CountriesLinked` describes. */
    ghost predicate CountryLinkState(k: nat, counter: nat, theCountries: map<CountryId, Country>, part: map<ProvinceId, Country>,
                                     links: map<ProvinceId, Country?>, sets: map<Country, set<Province>>,
                                     linksBefore: map<ProvinceId, Country?>, setsBefore: map<Country, set<Province>>)
      reads this, provinces.Values`country, provinces.Values`pops, theCountries.Values`provinces
    {
      forall u {:trigger UnfoldHeap(u)} :: UnfoldHeap(u) ==>
      && Valid() && k <= |ids|
      && part == Owners(theCountries)
      && CountryLinks() == links && ProvinceSets(theCountries) == sets
      && CountriesLinked(k, counter, links, sets, linksBefore, setsBefore, provinces, part, ids)
    }

    /** A step of the country linker together with the state it advances. */
    method LinkCountriesStep(k: nat, province: Province, theCountries: map<CountryId, Country>, counter: nat,
                             ghost part: map<ProvinceId, Country>,
                             ghost links: map<ProvinceId, Country?>, ghost sets: map<Country, set<Province>>,
                             ghost linksBefore: map<ProvinceId, Country?>, ghost setsBefore: map<Country, set<Province>>)
      returns (counter': nat, ghost links': map<ProvinceId, Country?>, ghost sets': map<Country, set<Province>>)
      requires Valid() && k < |ids| && province == provinces[ids[k]] && part == Owners(theCountries)
      requires CountryLinks() == links && ProvinceSets(theCountries) == sets
      requires CountriesLinked(k, counter, links, sets, linksBefore, setsBefore, provinces, part, ids)
      modifies province`country, theCountries.Values`provinces
      ensures part == Owners(theCountries)
      ensures CountryLinks() == links' && ProvinceSets(theCountries) == sets'
      ensures CountriesLinked(k + 1, counter', links', sets', linksBefore, setsBefore, provinces, part, ids)
    {
      CountriesLinkedStep(k, counter, links, sets, linksBefore, setsBefore, provinces, part, ids);
      counter' := LinkCountriesAt(k, province, theCountries, counter, part);
      links', sets' := links, sets;
      if ids[k] in part {
        links' := links[ids[k] := part[ids[k]]];
        sets' := sets[part[ids[k]] := sets[part[ids[k]]] + {province}];
      }
    }

    /** The step of the country linker at position `k`, on the whole linker state. */
    method LinkCountriesNext(k: nat, theCountries: map<CountryId, Country>, counter: nat, ghost part: map<ProvinceId, Country>,
                             ghost links: map<ProvinceId, Country?>, ghost sets: map<Country, set<Province>>,
                             ghost linksBefore: map<ProvinceId, Country?>, ghost setsBefore: map<Country, set<Province>>)
      returns (counter': nat, ghost links': map<ProvinceId, Country?>, ghost sets': map<Country, set<Province>>)
      requires k < |ids| && CountryLinkState(k, counter, theCountries, part, links, sets, linksBefore, setsBefore)
      modifies provinces.Values`country, theCountries.Values`provinces
      ensures CountryLinkState(k + 1, counter', theCountries, part, links', sets', linksBefore, setsBefore)
    {
      assert UnfoldHeap(0);
      counter', links', sets' := LinkCountriesStep(k, provinces[ids[k]], theCountries, counter, part, links, sets, linksBefore, setsBefore);
    }

    /** The country linker starts in its state for no steps. */
    lemma CountryLinkStateStart(theCountries: map<CountryId, Country>, part: map<ProvinceId, Country>)
      requires Valid() && part == Owners(theCountries)
      ensures CountryLinkState(0, 0, theCountries, part, CountryLinks(), ProvinceSets(theCountries),
                               CountryLinks(), ProvinceSets(theCountries))
    {
      CountriesLinkedStart(CountryLinks(), ProvinceSets(theCountries), provinces, part, ids);
    }

    /** The loop of the country linker, starting from the links `linksBefore`
        and the province sets `setsBefore`; it ends with the links `links`
        and the province sets `sets`. */
    method LinkCountriesLoop(theCountries: map<CountryId, Country>, ghost part: map<ProvinceId, Country>,
                             ghost linksBefore: map<ProvinceId, Country?>, ghost setsBefore: map<Country, set<Province>>)
      returns (counter: nat, ghost links: map<ProvinceId, Country?>, ghost sets: map<Country, set<Province>>)
      requires CountryLinkState(0, 0, theCountries, part, linksBefore, setsBefore, linksBefore, setsBefore)
      modifies provinces.Values`country, theCountries.Values`provinces
      ensures CountryLinkState(|ids|, counter, theCountries, part, links, sets, linksBefore, setsBefore)
    {
      links, sets := linksBefore, setsBefore;
      counter := 0;
      var k := 0;
      while k < |ids|
        invariant k <= |ids|
        invariant CountryLinkState(k, counter, theCountries, part, links, sets, linksBefore, setsBefore)
      {
        counter, links, sets := LinkCountriesNext(k, theCountries, counter, part, links, sets, linksBefore, setsBefore);
        k := k + 1;
      }
    }

    /** Links every province that has pops to its owner, when the owner is
        defined, both ways; returns the number of links made. */
    method LinkCountries(theCountries: map<CountryId, Country>) returns (counter: nat)
      requires Valid()
      modifies provinces.Values`country, theCountries.Values`provinces
      ensures forall id :: id in provinces ==>
                provinces[id].country == if id in Owners(theCountries) then Owners(theCountries)[id] else old(provinces[id].country)
      ensures forall id :: id in Owners(theCountries) ==> provinces[id] in Owners(theCountries)[id].provinces
      ensures forall c :: c in theCountries.Values ==>
                c.provinces == old(c.provinces) + set id | id in Owners(theCountries) && Owners(theCountries)[id] == c :: provinces[id]
      ensures counter == |Owners(theCountries)|
    {
      ghost var part := Owners(theCountries);
      ghost var linksBefore, setsBefore := CountryLinks(), ProvinceSets(theCountries);
      CountryLinkStateStart(theCountries, part);
      ghost var links, sets;
      counter, links, sets := LinkCountriesLoop(theCountries, part, linksBefore, setsBefore);
      assert UnfoldHeap(0);
      CountriesLinkedLinks(counter, links, sets, linksBefore, setsBefore, provinces, part, ids);
      CountriesLinkedSets(counter, links, sets, linksBefore, setsBefore, provinces, part, ids);
      CountriesLinkedCount(counter, links, sets, linksBefore, setsBefore, provinces, part, ids);
      forall id | id in provinces
        ensures provinces[id].country == if id in part then part[id] else old(provinces[id].country)
        ensures id in part ==> provinces[id] in part[id].provinces
      {
        assert links[id] == provinces[id].country && linksBefore[id] == old(provinces[id].country);
        if id in part {
          assert sets[part[id]] == part[id].provinces;
        }
      }
      forall c | c in theCountries.Values
        ensures c.provinces == old(c.provinces) + set id | id in Owners(theCountries) && Owners(theCountries)[id] == c :: provinces[id]
      {
        assert sets[c] == c.provinces && setsBefore[c] == old(c.provinces);
      }
    }
  }
}
