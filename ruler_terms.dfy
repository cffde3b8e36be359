/**
 * Pre-Imperator ruler terms as values, and the pure functions the world
 * loader's intake of them is specified by: which terms are kept and for
 * which country, the per-country intake dictionary, the stable ordering
 * by start date, and the regnal-name counts.
 */
module RulerTerms {
  import opened Wrappers

  type CountryId = nat
  /** A date as an ordinal on one epoch-relative scale; only its order matters here. */
  type Date = int

  /** The ruler of a term: the country it ruled (by id) and its name, either possibly missing. */
  datatype PreImperatorRuler = PreImperatorRuler(country: Option<CountryId>, name: Option<string>)

  datatype RulerTerm = RulerTerm(preImperatorRuler: Option<PreImperatorRuler>, startDate: Date)

  /** The country a term is filed under; None when it has no ruler or the ruler has no country. */
  function CountryOf(t: RulerTerm): Option<CountryId>
  {
    match t.preImperatorRuler
    case None => None
    case Some(r) => r.country
  }

  /** The name a term counts under; None when it has no ruler or the ruler has no name. */
  function RulerName(t: RulerTerm): Option<string>
  {
    match t.preImperatorRuler
    case None => None
    case Some(r) => r.name
  }

  /** The terms of `ts` filed under country `id`, in their original order. */
  function TermsOf(ts: seq<RulerTerm>, id: CountryId): seq<RulerTerm>
  {
    if ts == [] then []
    else TermsOf(ts[..|ts| - 1], id) + (if CountryOf(ts[|ts| - 1]) == Some(id) then [ts[|ts| - 1]] else [])
  }

  /** The intake dictionary built term by term: a kept term is appended to its
      country's list, which is created on the country's first term. */
  function Intake(ts: seq<RulerTerm>): map<CountryId, seq<RulerTerm>>
  {
    if ts == [] then map[]
    else
      var m := Intake(ts[..|ts| - 1]);
      var t := ts[|ts| - 1];
      match CountryOf(t)
      case None => m
      case Some(id) => if id in m then m[id := m[id] + [t]] else m[id := [t]]
  }

  /** A term filed under `id` has a ruler whose country is `id`, and comes from `ts`. */
  lemma {:induction false} TermsOfAreKept(ts: seq<RulerTerm>, id: CountryId)
    ensures forall t :: t in TermsOf(ts, id) ==>
              t in ts && t.preImperatorRuler.Some? && t.preImperatorRuler.value.country == Some(id)
  {
    if ts != [] {
      TermsOfAreKept(ts[..|ts| - 1], id);
    }
  }

  /** Every term of `ts` with a ruler and a country shows up under that country. */
  lemma {:induction false} KeptTermsAreFiled(ts: seq<RulerTerm>, t: RulerTerm)
    requires t in ts && CountryOf(t).Some?
    ensures t in TermsOf(ts, CountryOf(t).value)
  {
    if ts[|ts| - 1] != t {
      assert t in ts[..|ts| - 1] by {
        var k :| 0 <= k < |ts| && ts[k] == t;
        assert k < |ts| - 1;
        assert ts[..|ts| - 1][k] == t;
      }
      KeptTermsAreFiled(ts[..|ts| - 1], t);
    }
  }

  /** The intake dictionary has an entry exactly for the countries with at
      least one kept term, and that entry lists the country's terms in order. */
  lemma {:induction false} IntakeIsTermsOf(ts: seq<RulerTerm>)
    ensures forall id :: id in Intake(ts) <==> TermsOf(ts, id) != []
    ensures forall id :: id in Intake(ts) ==> Intake(ts)[id] == TermsOf(ts, id)
  {
    if ts != [] {
      IntakeIsTermsOf(ts[..|ts| - 1]);
    }
  }

  // ----- ordering by start date (LINQ OrderBy, a stable sort) -----

  ghost predicate SortedByStart(s: seq<RulerTerm>)
  {
    forall i, j :: 0 <= i < j < |s| ==> s[i].startDate <= s[j].startDate
  }

  /** The terms of `s` that start on date `d`, in order. */
  function StartingOn(s: seq<RulerTerm>, d: Date): seq<RulerTerm>
  {
    if s == [] then []
    else (if s[0].startDate == d then [s[0]] else []) + StartingOn(s[1..], d)
  }

  /** Inserts `t` before the first element that does not start earlier. */
  function InsertByStart(t: RulerTerm, s: seq<RulerTerm>): seq<RulerTerm>
  {
    if s == [] || t.startDate <= s[0].startDate then [t] + s
    else [s[0]] + InsertByStart(t, s[1..])
  }

  function SortByStart(s: seq<RulerTerm>): seq<RulerTerm>
  {
    if s == [] then [] else InsertByStart(s[0], SortByStart(s[1..]))
  }

  lemma {:induction false} InsertByStartPermutes(t: RulerTerm, s: seq<RulerTerm>)
    ensures multiset(InsertByStart(t, s)) == multiset(s) + multiset{t}
  {
    if s != [] && t.startDate > s[0].startDate {
      InsertByStartPermutes(t, s[1..]);
      assert s == [s[0]] + s[1..];
    }
  }

  lemma {:induction false} InsertByStartMembers(t: RulerTerm, s: seq<RulerTerm>)
    ensures forall x :: x in InsertByStart(t, s) <==> x == t || x in s
  {
    if s != [] && t.startDate > s[0].startDate {
      InsertByStartMembers(t, s[1..]);
      assert s == [s[0]] + s[1..];
    }
  }

  lemma {:induction false} InsertByStartSorted(t: RulerTerm, s: seq<RulerTerm>)
    requires SortedByStart(s)
    ensures SortedByStart(InsertByStart(t, s))
  {
    if s != [] && t.startDate > s[0].startDate {
      var rest := InsertByStart(t, s[1..]);
      InsertByStartSorted(t, s[1..]);
      InsertByStartMembers(t, s[1..]);
      var r := [s[0]] + rest;
      forall i, j | 0 <= i < j < |r|
        ensures r[i].startDate <= r[j].startDate
      {
        if i == 0 {
          var x := rest[j - 1];
          assert x in rest;
          if x != t {
            var k :| 0 <= k < |s[1..]| && s[1..][k] == x;
            assert s[k + 1] == x;
          }
        } else {
          assert r[i] == rest[i - 1] && r[j] == rest[j - 1];
        }
      }
    }
  }

  lemma {:induction false} InsertByStartStable(t: RulerTerm, s: seq<RulerTerm>, d: Date)
    ensures StartingOn(InsertByStart(t, s), d) ==
              (if t.startDate == d then [t] + StartingOn(s, d) else StartingOn(s, d))
  {
    if s == [] || t.startDate <= s[0].startDate {
      assert ([t] + s)[1..] == s;
    } else {
      InsertByStartStable(t, s[1..], d);
      assert ([s[0]] + InsertByStart(t, s[1..]))[1..] == InsertByStart(t, s[1..]);
    }
  }

  /** The stable sort by start date orders the terms non-decreasingly and is a
      permutation of its input. */
  lemma {:induction false} SortByStartSortsAndPermutes(s: seq<RulerTerm>)
    ensures SortedByStart(SortByStart(s))
    ensures multiset(SortByStart(s)) == multiset(s)
  {
    if s != [] {
      SortByStartSortsAndPermutes(s[1..]);
      InsertByStartSorted(s[0], SortByStart(s[1..]));
      InsertByStartPermutes(s[0], SortByStart(s[1..]));
      assert s == [s[0]] + s[1..];
    }
  }

  /** Stability: the terms that start on any one date keep their original
      relative order. */
  lemma {:induction false} SortByStartIsStable(s: seq<RulerTerm>, d: Date)
    ensures StartingOn(SortByStart(s), d) == StartingOn(s, d)
  {
    if s != [] {
      SortByStartIsStable(s[1..], d);
      InsertByStartStable(s[0], SortByStart(s[1..]), d);
    }
  }

  // ----- regnal-name counts -----

  /** How many terms of `ts` have a ruler named `name`. */
  function CountNamed(ts: seq<RulerTerm>, name: string): nat
  {
    if ts == [] then 0
    else CountNamed(ts[..|ts| - 1], name) + (if RulerName(ts[|ts| - 1]) == Some(name) then 1 else 0)
  }

  /** The ruler names that occur in `ts`. */
  ghost function NamesIn(ts: seq<RulerTerm>): set<string>
  {
    set t | t in ts && RulerName(t).Some? :: RulerName(t).value
  }

  /** The name-to-count dictionary of a country's terms. */
  ghost function NameCounts(ts: seq<RulerTerm>): map<string, int>
  {
    map name | name in NamesIn(ts) :: CountNamed(ts, name) as int
  }

  /** A name has an entry exactly when some term is named so, and the entry is positive. */
  lemma {:induction false} NameCountsPositive(ts: seq<RulerTerm>)
    ensures forall name :: name in NameCounts(ts) <==> CountNamed(ts, name) > 0
    ensures forall name :: name in NameCounts(ts) ==> NameCounts(ts)[name] > 0
  {
    if ts != [] {
      var init, t := ts[..|ts| - 1], ts[|ts| - 1];
      assert ts == init + [t];
      NameCountsPositive(init);
      assert NamesIn(ts) == NamesIn(init) + (if RulerName(t).Some? then {RulerName(t).value} else {});
    }
  }

  /** One more term adds one to its ruler's name count, or starts it at one. */
  lemma NameCountsSnoc(ts: seq<RulerTerm>, t: RulerTerm)
    ensures NameCounts(ts + [t]) ==
              match RulerName(t)
              case None => NameCounts(ts)
              case Some(n) => NameCounts(ts)[n := if n in NameCounts(ts) then NameCounts(ts)[n] + 1 else 1]
  {
    var ts' := ts + [t];
    assert ts'[..|ts'| - 1] == ts;
    assert NamesIn(ts') == NamesIn(ts) + (if RulerName(t).Some? then {RulerName(t).value} else {});
    NameCountsPositive(ts);
  }

  /** The comparison with the historical regnal numbers: a country without
      intake terms matches only an empty table; otherwise the tables must agree
      name by name. */
  predicate RegnalNumbersMatch(historical: map<string, int>, counts: Option<map<string, int>>)
  {
    match counts
    case None => |historical| == 0
    case Some(c) => historical == c
  }
}
