/**
 * The Imperator world object: its save-type state with the verification of a
 * save and the dispatch that opens it, and the intake of pre-Imperator ruler
 * terms into the countries it holds.
 */
module World {
  import opened Wrappers
  import opened SaveFormat
  import opened RulerTerms

  /** Stream.ReadByte on the save at position `pos`: the byte and the next
      position, or -1 and the same position at the end of the stream. */
  function ReadByte(save: seq<byte>, pos: nat): (int, nat)
  {
    if pos < |save| then (save[pos] as int, pos + 1) else (-1, pos)
  }

  /** The header-skip loop: reads byte by byte from offset 4 (just after the
      first 4-byte read) until a line end. */
  method SkipHeaderLine(save: seq<byte>) returns (pos: nat)
    requires HeaderLineEnds(save)
    ensures 4 < pos <= |save| && IsLineEnd(save[pos - 1] as int)
    ensures forall j :: 4 <= j < pos - 1 ==> !IsLineEnd(save[j] as int)
  {
    var ch: int;
    var r := ReadByte(save, 4);
    ch, pos := r.0, r.1;
    while !IsLineEnd(ch)
      invariant 4 < pos <= |save| && ch == save[pos - 1] as int
      invariant forall j :: 4 <= j < pos - 1 ==> !IsLineEnd(save[j] as int)
      decreases |save| - pos
    {
      assert pos < |save| by {
        var k :| 4 <= k < |save| && IsLineEnd(save[k] as int);
        assert k >= pos;
      }
      r := ReadByte(save, pos);
      ch, pos := r.0, r.1;
    }
  }

  /** How many regnal names each ruler name accounts for in a country's terms. */
  method CountRegnalNames(terms: seq<RulerTerm>) returns (counts: map<string, int>)
    ensures counts == NameCounts(terms)
  {
    counts := map[];
    for k := 0 to |terms|
      invariant counts == NameCounts(terms[..k])
    {
      var term := terms[k];
      NameCountsSnoc(terms[..k], term);
      assert terms[..k + 1] == terms[..k] + [term];
      if term.preImperatorRuler.Some? {
        var name := term.preImperatorRuler.value.name;
        if name.Some? {
          if name.value in counts {
            counts := counts[name.value := counts[name.value] + 1];
          } else {
            counts := counts[name.value := 1];
          }
        }
      }
    }
    assert terms[..|terms|] == terms;
  }

  class Country {
    const id: CountryId
    var rulerTerms: seq<RulerTerm>
    const historicalRegnalNumbers: map<string, int>

    constructor (id: CountryId, historicalRegnalNumbers: map<string, int>)
      ensures this.id == id && this.historicalRegnalNumbers == historicalRegnalNumbers
      ensures rulerTerms == []
    {
      this.id := id;
      this.historicalRegnalNumbers := historicalRegnalNumbers;
      rulerTerms := [];
    }
  }

  class World {
    var saveType: SaveType
    var countries: map<CountryId, Country>

    /** The country collection is keyed by each country's own id. */
    ghost predicate Valid()
      reads this
    {
      forall id :: id in countries ==> countries[id].id == id
    }

    /** Every kept term's country was resolved against the country collection. */
    ghost predicate CountriesResolve(terms: seq<RulerTerm>)
      reads this
    {
      forall t :: t in terms && CountryOf(t).Some? ==> CountryOf(t).value in countries
    }

    constructor (countries: map<CountryId, Country>)
      requires forall id :: id in countries ==> countries[id].id == id
      ensures Valid() && this.countries == countries
      ensures saveType == Invalid
    {
      this.countries := countries;
      saveType := Invalid;
    }

    /** Checks the header, the size and the first block of a save and records
        its type. `bytesRead` is what reading the first block returned. */
    method VerifySave(save: seq<byte>, bytesRead: nat) returns (r: Result<SaveType, SaveError>)
      requires bytesRead <= BlockSize && bytesRead <= |save|
      requires HasMagic(save) ==> HeaderLineEnds(save)
      modifies this`saveType
      ensures r == Verification(save, bytesRead)
      ensures r.Success? ==> saveType == r.value
      ensures r.Failure? ==> saveType == old(saveType)
    {
      var buffer := new byte[10]((k: nat) => if k < 4 && k < |save| then save[k] else 0);
      assert buffer[..] == HeaderBuffer(save);
      if buffer[0] != ToByte('S') || buffer[1] != ToByte('A') || buffer[2] != ToByte('V') {
        return Failure(UnknownSaveGame);
      }

      var _ := SkipHeaderLine(save);

      if |save| < MinSaveSize {
        return Failure(SaveTooSmall);
      }

      var bigBuf := new byte[BlockSize]((k: nat) => if k < bytesRead then save[k] else 0);
      if bytesRead < BlockSize {
        return Failure(ShortBlockRead(bytesRead));
      }
      assert bigBuf[..] == save[..BlockSize];
      assert save[0] == ToByte('S') && save[1] == ToByte('A') by {
        assert buffer[0] == save[0] && buffer[1] == save[1];
      }

      ScanBlock(bigBuf);
      r := Success(saveType);
    }

    /** The scan of the first block: the save type becomes CompressedEncoded
        when some offset holds the ZIP signature preceded by the word 4, and
        Plaintext otherwise. The block starts with the magic, so the dword test
        fails at offsets 0 and 1 and the word at i - 2 is only read for i >= 2. */
    method ScanBlock(bigBuf: array<byte>)
      requires bigBuf.Length == BlockSize
      requires bigBuf[0] == ToByte('S') && bigBuf[1] == ToByte('A')
      modifies this`saveType
      ensures saveType == Classify(bigBuf[..])
    {
      MagicExcludesEarlySignature(bigBuf[..]);
      saveType := Plaintext;
      var i := 0;
      while i < ScanEnd
        invariant 0 <= i <= ScanEnd
        invariant saveType == if exists j :: 0 <= j < i && SignatureAt(bigBuf[..], j) then CompressedEncoded else Plaintext
      {
        if LeU32(bigBuf[..], i) == ZipLocalHeaderSignature && LeU16(bigBuf[..], i - 2) == PrecedingWord {
          saveType := CompressedEncoded;
          assert SignatureAt(bigBuf[..], i);
        } else {
          assert !SignatureAt(bigBuf[..], i);
        }
        i := i + 1;
      }
    }

    /** Verification followed by the dispatch that opens the save for parsing.
        A verified save always has a known type, so the dispatch's
        "Unknown save type" error never arises. */
    method LoadSave(save: seq<byte>, bytesRead: nat, savePath: string) returns (r: Result<SaveReader, SaveError>)
      requires bytesRead <= BlockSize && bytesRead <= |save|
      requires HasMagic(save) ==> HeaderLineEnds(save)
      modifies this`saveType
      ensures r.Failure? ==> r.error != UnknownSaveType && Verification(save, bytesRead) == Failure(r.error)
      ensures r.Success? ==> Verification(save, bytesRead).Success?
      ensures r.Success? ==> r == ProcessSave(Verification(save, bytesRead).value, savePath)
    {
      var verified := VerifySave(save, bytesRead);
      if verified.Failure? {
        return Failure(verified.error);
      }
      r := ProcessSave(saveType, savePath);
    }

    /** Files each kept term under its country, both in the country's own
        list and in the intake dictionary that is returned. */
    method IntakeRulerTerms(terms: seq<RulerTerm>) returns (intake: map<CountryId, seq<RulerTerm>>)
      requires Valid() && CountriesResolve(terms)
      modifies countries.Values
      ensures intake == Intake(terms)
      ensures forall id :: id in countries ==>
                countries[id].rulerTerms == old(countries[id].rulerTerms) + TermsOf(terms, id)
    {
      intake := map[];
      for k := 0 to |terms|
        invariant intake == Intake(terms[..k])
        invariant forall id :: id in countries ==>
                    countries[id].rulerTerms == old(countries[id].rulerTerms) + TermsOf(terms[..k], id)
      {
        var term := terms[k];
        assert term in terms;
        assert terms[..k + 1][..k] == terms[..k];
        assert terms[..k + 1][k] == term;
        if term.preImperatorRuler.Some? && term.preImperatorRuler.value.country.Some? {
          var countryId := term.preImperatorRuler.value.country.value;
          var country := countries[countryId];
          country.rulerTerms := country.rulerTerms + [term];
          if countryId in intake {
            intake := intake[countryId := intake[countryId] + [term]];
          } else {
            intake := intake[countryId := [term]];
          }
        }
      }
      assert terms[..|terms|] == terms;
    }

    /** Replaces every country's ruler terms by their stable ordering by start date. */
    method SortRulerTerms()
      requires Valid()
      modifies countries.Values
      ensures forall id :: id in countries ==> countries[id].rulerTerms == SortByStart(old(countries[id].rulerTerms))
    {
      var todo := countries.Keys;
      while todo != {}
        invariant todo <= countries.Keys
        invariant forall id :: id in countries ==>
                    countries[id].rulerTerms == if id in todo then old(countries[id].rulerTerms)
                                                else SortByStart(old(countries[id].rulerTerms))
        decreases todo
      {
        var id :| id in todo;
        var country := countries[id];
        country.rulerTerms := SortByStart(country.rulerTerms);
        todo := todo - {id};
      }
    }

    /** The name counts of every country that received intake terms. */
    method BuildRegnalNameCounts(intake: map<CountryId, seq<RulerTerm>>)
      returns (regnalNameCounts: map<CountryId, map<string, int>>)
      ensures regnalNameCounts == map id | id in countries && id in intake :: NameCounts(intake[id])
    {
      regnalNameCounts := map[];
      var todo := countries.Keys;
      while todo != {}
        invariant todo <= countries.Keys
        invariant regnalNameCounts == map id | id in countries.Keys - todo && id in intake :: NameCounts(intake[id])
        decreases todo
      {
        var id :| id in todo;
        if id in intake {
          var counts := CountRegnalNames(intake[id]);
          regnalNameCounts := regnalNameCounts[id := counts];
        }
        todo := todo - {id};
      }
    }

    /** The countries whose historical regnal numbers disagree with the counts;
        these are only reported, never an error. */
    method FindRegnalMismatches(regnalNameCounts: map<CountryId, map<string, int>>) returns (mismatched: set<CountryId>)
      ensures mismatched == set id | id in countries &&
                !RegnalNumbersMatch(countries[id].historicalRegnalNumbers,
                                    if id in regnalNameCounts then Some(regnalNameCounts[id]) else None)
    {
      mismatched := {};
      var todo := countries.Keys;
      while todo != {}
        invariant todo <= countries.Keys
        invariant mismatched == set id | id in countries.Keys - todo &&
                    !RegnalNumbersMatch(countries[id].historicalRegnalNumbers,
                                        if id in regnalNameCounts then Some(regnalNameCounts[id]) else None)
        decreases todo
      {
        var id :| id in todo;
        var country := countries[id];
        var equal;
        if id !in regnalNameCounts {
          equal := |country.historicalRegnalNumbers| == 0;
        } else {
          equal := country.historicalRegnalNumbers == regnalNameCounts[id];
        }
        if !equal {
          mismatched := mismatched + {id};
        }
        todo := todo - {id};
      }
    }

    /** Loads the pre-Imperator ruler terms: files the kept terms under their
        countries, orders each country's terms by start date, and reports the
        countries whose regnal-name counts disagree with their historical
        regnal numbers. */
    method LoadPreImperatorRulers(terms: seq<RulerTerm>) returns (mismatched: set<CountryId>)
      requires Valid() && CountriesResolve(terms)
      modifies countries.Values
      ensures forall id :: id in countries ==>
                countries[id].rulerTerms == SortByStart(old(countries[id].rulerTerms) + TermsOf(terms, id))
      ensures mismatched == set id | id in countries &&
                !RegnalNumbersMatch(countries[id].historicalRegnalNumbers,
                                    if TermsOf(terms, id) != [] then Some(NameCounts(TermsOf(terms, id))) else None)
    {
      var intake := IntakeRulerTerms(terms);
      SortRulerTerms();
      var regnalNameCounts := BuildRegnalNameCounts(intake);
      IntakeIsTermsOf(terms);
      mismatched := FindRegnalMismatches(regnalNameCounts);
    }
  }
}
