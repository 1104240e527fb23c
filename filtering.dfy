// The two fixed filter predicates of `filterBy` (src/App.tsx) and what
// applying them to the current list means.

module Filtering {
  import opened Countries
  import opened Lists

  /** Area of Lithuania in square kilometres, the reference of the area filter. */
  const LithuaniaArea: nat := 65300

  /** The predicate behind the "SmallerThanLithuania" key. */
  predicate SmallerThanLithuania(c: Country)
  {
    c.area < LithuaniaArea
  }

  /** The predicate behind the "InOceania" key: an exact, case-sensitive match. */
  predicate InOceania(c: Country)
  {
    c.region == "Oceania"
  }

  /** The area filter keeps exactly the small countries, as often as they occur,
      in their order, and a second application changes nothing. */
  lemma SmallerThanLithuaniaKeepsExactly(cs: seq<Country>)
    ensures forall c :: c in Filter(cs, SmallerThanLithuania) <==> c in cs && c.area < 65300
    ensures forall c :: multiset(Filter(cs, SmallerThanLithuania))[c] ==
                        if c.area < 65300 then multiset(cs)[c] else 0
    ensures IsSubsequence(Filter(cs, SmallerThanLithuania), cs)
    ensures Filter(Filter(cs, SmallerThanLithuania), SmallerThanLithuania) == Filter(cs, SmallerThanLithuania)
  {
    forall c ensures multiset(Filter(cs, SmallerThanLithuania))[c] ==
                     if c.area < 65300 then multiset(cs)[c] else 0 {
      FilterCount(cs, SmallerThanLithuania, c);
    }
    FilterMembers(cs, SmallerThanLithuania);
    FilterIsSubsequence(cs, SmallerThanLithuania);
    FilterIdempotent(cs, SmallerThanLithuania);
  }

  /** The region filter keeps exactly the countries of Oceania, as often as they
      occur, in their order, and a second application changes nothing. */
  lemma InOceaniaKeepsExactly(cs: seq<Country>)
    ensures forall c :: c in Filter(cs, InOceania) <==> c in cs && c.region == "Oceania"
    ensures forall c :: multiset(Filter(cs, InOceania))[c] ==
                        if c.region == "Oceania" then multiset(cs)[c] else 0
    ensures IsSubsequence(Filter(cs, InOceania), cs)
    ensures Filter(Filter(cs, InOceania), InOceania) == Filter(cs, InOceania)
  {
    forall c ensures multiset(Filter(cs, InOceania))[c] ==
                     if c.region == "Oceania" then multiset(cs)[c] else 0 {
      FilterCount(cs, InOceania, c);
    }
    FilterMembers(cs, InOceania);
    FilterIsSubsequence(cs, InOceania);
    FilterIdempotent(cs, InOceania);
  }

  /** Because each filter narrows the current list, pressing both buttons leaves
      the countries that pass both tests, whichever was pressed first. */
  lemma FiltersAccumulate(cs: seq<Country>)
    ensures Filter(Filter(cs, SmallerThanLithuania), InOceania) ==
            Filter(Filter(cs, InOceania), SmallerThanLithuania)
    ensures forall c :: c in Filter(Filter(cs, SmallerThanLithuania), InOceania) <==>
                        c in cs && c.area < 65300 && c.region == "Oceania"
  {
    FilterCommutes(cs, SmallerThanLithuania, InOceania);
  }
}
