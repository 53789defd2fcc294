/** The mock result provider, `generateMockResults`: a filter over a fixed
    catalogue of five opportunity records by free text and by the values of
    the page's filter selects. */
module Search {
  import opened Text

  datatype Kind = Curso | Trabajo | Voluntariado | Beca

  datatype Area = Tecnologia | Marketing | Diseno | Administracion | Ventas | Comunicacion | Finanzas

  /** The `type` string a record carries. */
  function KindName(k: Kind): string {
    match k
    case Curso => "curso"
    case Trabajo => "trabajo"
    case Voluntariado => "voluntariado"
    case Beca => "beca"
  }

  /** The `area` string a record carries. */
  function AreaName(a: Area): string {
    match a
    case Tecnologia => "tecnologia"
    case Marketing => "marketing"
    case Diseno => "diseno"
    case Administracion => "administracion"
    case Ventas => "ventas"
    case Comunicacion => "comunicacion"
    case Finanzas => "finanzas"
  }

  datatype Opportunity = Opportunity(title: string, kind: Kind, area: Area)

  /** "Curso de JavaScript para Principiantes", written in three pieces so
      that the word `JavaScript` can be found by position. */
  const Title0: string := "Curso de " + "JavaScript" + " para Principiantes"
  const Title1: string := "Pasantía en Marketing Digital"
  const Title2: string := "Voluntariado en ONG Educativa"
  const Title3: string := "Beca para Diseño UX/UI"
  const Title4: string := "Junior Developer - Sin Experiencia"

  /** The literal table, in its order. */
  const Catalogue: seq<Opportunity> := [
    Opportunity(Title0, Curso, Tecnologia),
    Opportunity(Title1, Trabajo, Marketing),
    Opportunity(Title2, Voluntariado, Comunicacion),
    Opportunity(Title3, Beca, Diseno),
    Opportunity(Title4, Trabajo, Tecnologia)
  ]

  /** The select value that admits every record. */
  const MatchAll: string := "todas"

  /** `!searchTerm || title.toLowerCase().includes(searchTerm.toLowerCase())` */
  predicate MatchesSearch(o: Opportunity, term: string) {
    term == "" || Includes(ToLower(o.title), ToLower(term))
  }

  /** `filter === 'todas' || area === filter || type === filter` */
  predicate Admits(filter: string, o: Opportunity) {
    filter == MatchAll || filter == AreaName(o.area) || filter == KindName(o.kind)
  }

  /** `filters.every(...)`: true of the empty list. */
  predicate MatchesFilters(o: Opportunity, filters: seq<string>) {
    forall i :: 0 <= i < |filters| ==> Admits(filters[i], o)
  }

  predicate Keep(o: Opportunity, term: string, filters: seq<string>) {
    MatchesSearch(o, term) && MatchesFilters(o, filters)
  }

  /** `a` is `b` with some elements left out, the rest in their order. */
  ghost predicate IsSubsequence<T>(a: seq<T>, b: seq<T>)
    decreases |b|
  {
    if a == [] then true
    else if b == [] then false
    else (a[0] == b[0] && IsSubsequence(a[1..], b[1..])) || IsSubsequence(a, b[1..])
  }

  /** `records.filter(keep)`: the records that pass, in their order, and only
      records that were there. */
  function Select(records: seq<Opportunity>, term: string, filters: seq<string>): (r: seq<Opportunity>)
    ensures IsSubsequence(r, records)
    ensures forall o :: o in r <==> o in records && Keep(o, term, filters)
  {
    if records == [] then []
    else
      var rest := Select(records[1..], term, filters);
      assert forall o :: o in records <==> o == records[0] || o in records[1..];
      if Keep(records[0], term, filters) then [records[0]] + rest else rest
  }

  /** The filter keeps every passing record as often as it occurs and
      drops every other record entirely. */
  lemma {:induction false} SelectCounts(records: seq<Opportunity>, term: string, filters: seq<string>)
    ensures forall o :: multiset(Select(records, term, filters))[o] ==
                          if Keep(o, term, filters) then multiset(records)[o] else 0
    decreases |records|
  {
    if records != [] {
      SelectCounts(records[1..], term, filters);
      assert records == [records[0]] + records[1..];
    }
  }

  /** `generateMockResults(searchTerm, filters)`: a subsequence of the
      catalogue that holds exactly the records the query keeps. */
  function GenerateMockResults(term: string, filters: seq<string>): (r: seq<Opportunity>)
    ensures IsSubsequence(r, Catalogue) && |r| <= |Catalogue|
    ensures forall k :: 0 <= k < |Catalogue| ==> (Catalogue[k] in r <==> Keep(Catalogue[k], term, filters))
    ensures forall o :: o in r ==> o in Catalogue
  {
    var r := Select(Catalogue, term, filters);
    SubsequenceLength(r, Catalogue);
    r
  }

  // ---------------------------------------------------------------------
  // Subsequences
  // ---------------------------------------------------------------------

  lemma {:induction false} SubsequenceLength<T>(a: seq<T>, b: seq<T>)
    requires IsSubsequence(a, b)
    ensures |a| <= |b|
    decreases |b|
  {
    if a != [] {
      if a[0] == b[0] && IsSubsequence(a[1..], b[1..]) {
        SubsequenceLength(a[1..], b[1..]);
      } else {
        SubsequenceLength(a, b[1..]);
      }
    }
  }

  // ---------------------------------------------------------------------
  // Monotonicity
  // ---------------------------------------------------------------------

  /** Filtering with a stronger condition keeps a subsequence of what the
      weaker one keeps. */
  lemma {:induction false} SelectNarrows(records: seq<Opportunity>, t: string, f: seq<string>, t2: string, f2: seq<string>)
    requires forall o :: Keep(o, t2, f2) ==> Keep(o, t, f)
    ensures IsSubsequence(Select(records, t2, f2), Select(records, t, f))
    decreases |records|
  {
    if records != [] {
      var x := records[0];
      SelectNarrows(records[1..], t, f, t2, f2);
      var r2 := Select(records, t2, f2);
      var r := Select(records, t, f);
      if Keep(x, t2, f2) {
        assert r2 == [x] + Select(records[1..], t2, f2);
        assert r == [x] + Select(records[1..], t, f);
        assert r2[1..] == Select(records[1..], t2, f2);
        assert r[1..] == Select(records[1..], t, f);
      } else if Keep(x, t, f) {
        assert r == [x] + Select(records[1..], t, f);
        assert r[1..] == Select(records[1..], t, f);
        if r2 != [] {
          assert r2[0] in r2;
        }
      }
    }
  }

  /** Adding a filter never enlarges the result. */
  lemma AddFilterNarrows(term: string, filters: seq<string>, extra: string)
    ensures IsSubsequence(GenerateMockResults(term, filters + [extra]), GenerateMockResults(term, filters))
  {
    forall o | Keep(o, term, filters + [extra]) ensures Keep(o, term, filters) {
      assert forall i :: 0 <= i < |filters| ==> (filters + [extra])[i] == filters[i];
    }
    SelectNarrows(Catalogue, term, filters, term, filters + [extra]);
  }

  /** More generally, a filter list that contains every filter of another
      never keeps more. */
  lemma MoreFiltersNarrow(term: string, filters: seq<string>, more: seq<string>)
    requires forall i :: 0 <= i < |filters| ==> filters[i] in more
    ensures IsSubsequence(GenerateMockResults(term, more), GenerateMockResults(term, filters))
  {
    SelectNarrows(Catalogue, term, filters, term, more);
  }

  /** Lengthening the search term so that the old term still occurs in it
      never enlarges the result. */
  lemma LongerTermNarrows(term: string, longer: string, filters: seq<string>)
    requires IsInfix(term, longer)
    ensures IsSubsequence(GenerateMockResults(longer, filters), GenerateMockResults(term, filters))
  {
    forall o | MatchesSearch(o, longer) ensures MatchesSearch(o, term) {
      if term != "" {
        InfixToLower(term, longer);
        InfixTransitive(ToLower(term), ToLower(longer), ToLower(o.title));
      }
    }
    SelectNarrows(Catalogue, term, filters, longer, filters);
  }

  // ---------------------------------------------------------------------
  // Neutral queries
  // ---------------------------------------------------------------------

  lemma {:induction false} SelectAll(records: seq<Opportunity>, term: string, filters: seq<string>)
    requires forall o :: Keep(o, term, filters)
    ensures Select(records, term, filters) == records
    decreases |records|
  {
    if records != [] {
      SelectAll(records[1..], term, filters);
    }
  }

  /** The empty term with only `todas` filters, or with no filters at all,
      returns the whole catalogue. */
  lemma NeutralQueryKeepsAll(filters: seq<string>)
    requires forall i :: 0 <= i < |filters| ==> filters[i] == MatchAll
    ensures GenerateMockResults("", filters) == Catalogue
    ensures GenerateMockResults("", []) == Catalogue
  {
    SelectAll(Catalogue, "", filters);
    SelectAll(Catalogue, "", []);
  }

  /** `todas` entries in the filter list change nothing. */
  lemma MatchAllIsNeutral(term: string, filters: seq<string>)
    ensures GenerateMockResults(term, filters + [MatchAll]) == GenerateMockResults(term, filters)
  {
    var f2 := filters + [MatchAll];
    forall o ensures Keep(o, term, f2) == Keep(o, term, filters) {
      assert forall i :: 0 <= i < |filters| ==> f2[i] == filters[i];
    }
    SelectSame(Catalogue, term, filters, term, f2);
  }

  lemma {:induction false} SelectSame(records: seq<Opportunity>, t: string, f: seq<string>, t2: string, f2: seq<string>)
    requires forall o :: Keep(o, t2, f2) == Keep(o, t, f)
    ensures Select(records, t2, f2) == Select(records, t, f)
    decreases |records|
  {
    if records != [] {
      SelectSame(records[1..], t, f, t2, f2);
    }
  }

  // ---------------------------------------------------------------------
  // The literal table
  // ---------------------------------------------------------------------

  /** The table holds five records, no two alike. */
  lemma CatalogueDistinct()
    ensures |Catalogue| == 5
    ensures forall i, j :: 0 <= i < j < |Catalogue| ==> Catalogue[i] != Catalogue[j]
  {
  }

  /** Each table record the query keeps is in the result exactly once, and
      each other one not at all. */
  lemma MockResultsOnce(term: string, filters: seq<string>, k: int)
    requires 0 <= k < |Catalogue|
    ensures multiset(GenerateMockResults(term, filters))[Catalogue[k]] ==
              if Keep(Catalogue[k], term, filters) then 1 else 0
  {
    SelectCounts(Catalogue, term, filters);
    CatalogueDistinct();
    var c := Catalogue;
    assert c == [c[0]] + [c[1]] + [c[2]] + [c[3]] + [c[4]];
    assert multiset(c) == multiset{c[0]} + multiset{c[1]} + multiset{c[2]} + multiset{c[3]} + multiset{c[4]};
  }

  /** The record alone if the query keeps it, else nothing. */
  function Keeps(o: Opportunity, term: string, filters: seq<string>): seq<Opportunity> {
    if Keep(o, term, filters) then [o] else []
  }

  /** One step of the filter. */
  lemma SelectStep(records: seq<Opportunity>, term: string, filters: seq<string>)
    requires records != []
    ensures Select(records, term, filters) == Keeps(records[0], term, filters) + Select(records[1..], term, filters)
  {
  }

  /** On five records the filter is the concatenation of the five
      individual decisions. */
  lemma SelectFive(records: seq<Opportunity>, term: string, filters: seq<string>)
    requires |records| == 5
    ensures Select(records, term, filters) ==
              Keeps(records[0], term, filters) + (Keeps(records[1], term, filters)
              + (Keeps(records[2], term, filters) + (Keeps(records[3], term, filters)
              + Keeps(records[4], term, filters))))
  {
    var r := records;
    var k0, k1, k2, k3, k4 := Keeps(r[0], term, filters), Keeps(r[1], term, filters),
      Keeps(r[2], term, filters), Keeps(r[3], term, filters), Keeps(r[4], term, filters);
    var s4 := Select(r[4..], term, filters);
    assert s4 == k4 by {
      SelectStep(r[4..], term, filters);
      assert r[4..][1..] == [];
    }
    var s3 := Select(r[3..], term, filters);
    assert s3 == k3 + k4 by {
      SelectStep(r[3..], term, filters);
      assert r[3..][1..] == r[4..];
    }
    var s2 := Select(r[2..], term, filters);
    assert s2 == k2 + (k3 + k4) by {
      SelectStep(r[2..], term, filters);
      assert r[2..][1..] == r[3..];
    }
    var s1 := Select(r[1..], term, filters);
    assert s1 == k1 + (k2 + (k3 + k4)) by {
      SelectStep(r[1..], term, filters);
      assert r[1..][1..] == r[2..];
    }
    SelectStep(r, term, filters);
  }

  /** The result is, in catalogue order, the catalogue records the query
      keeps. */
  lemma CatalogueResult(term: string, filters: seq<string>)
    ensures GenerateMockResults(term, filters) ==
              Keeps(Catalogue[0], term, filters) + (Keeps(Catalogue[1], term, filters)
              + (Keeps(Catalogue[2], term, filters) + (Keeps(Catalogue[3], term, filters)
              + Keeps(Catalogue[4], term, filters))))
  {
    SelectFive(Catalogue, term, filters);
  }

  /** A title lacking some character of the term cannot match it. */
  lemma LacksChar(o: Opportunity, term: string, k: int)
    requires 0 <= k < |term| && ToLower(term)[k] !in ToLower(o.title)
    ensures !MatchesSearch(o, term)
  {
    if Includes(ToLower(o.title), ToLower(term)) {
      InfixChars(ToLower(term), ToLower(o.title), k);
    }
  }

  /** With no text term and one filter `tecnologia`: records 0 and 4. */
  lemma TecnologiaFilter()
    ensures GenerateMockResults("", ["tecnologia"]) == [Catalogue[0], Catalogue[4]]
  {
    var f := ["tecnologia"];
    assert Admits(f[0], Catalogue[0]) && Admits(f[0], Catalogue[4]);
    assert !Admits(f[0], Catalogue[1]) && !Admits(f[0], Catalogue[2]) && !Admits(f[0], Catalogue[3]);
    assert Keeps(Catalogue[0], "", f) == [Catalogue[0]];
    assert Keeps(Catalogue[1], "", f) == [];
    assert Keeps(Catalogue[2], "", f) == [];
    assert Keeps(Catalogue[3], "", f) == [];
    assert Keeps(Catalogue[4], "", f) == [Catalogue[4]];
    CatalogueResult("", f);
  }

  /** With no text term and one filter `todas`: the whole catalogue. */
  lemma TodasFilter()
    ensures GenerateMockResults("", [MatchAll]) == Catalogue
  {
    NeutralQueryKeepsAll([MatchAll]);
  }

  /** An ASCII lower-case letter that occurs in `s` neither in lower nor in
      upper case does not occur in `ToLower(s)`. */
  lemma ToLowerLacks(s: string, c: char, upper: char)
    requires 'a' <= c <= 'z' && upper as int == c as int - 0x20
    requires c !in s && upper !in s
    ensures c !in ToLower(s)
  {
    forall i | 0 <= i < |s| ensures ToLower(s)[i] != c {
      assert s[i] != c && s[i] != upper;
    }
  }

  lemma JavascriptInTitle0()
    ensures ToLower(Title0)[9..19] == "javascript"
  {
    var a, b, c := "Curso de ", "JavaScript", " para Principiantes";
    assert |a| == 9 && |b| == 10;
    assert Title0[9..19] == b by {
      assert (a + b + c)[|a|..|a| + |b|] == b;
    }
    ToLowerSlice(Title0, 9, 19);
    assert ToLower("JavaScript") == "javascript";
  }

  lemma Title1LacksJ()
    ensures 'j' !in ToLower(Title1)
  {
    ToLowerLacks(Title1, 'j', 'J');
  }

  lemma Title2LacksJ()
    ensures 'j' !in ToLower(Title2)
  {
    ToLowerLacks(Title2, 'j', 'J');
  }

  lemma Title3LacksJ()
    ensures 'j' !in ToLower(Title3)
  {
    ToLowerLacks(Title3, 'j', 'J');
  }

  lemma Title4LacksT()
    ensures 't' !in ToLower(Title4)
  {
    ToLowerLacks(Title4, 't', 'T');
  }

  lemma Title0LacksY()
    ensures 'y' !in ToLower(Title0)
  {
    ToLowerLacks(Title0, 'y', 'Y');
  }

  lemma Title1LacksY()
    ensures 'y' !in ToLower(Title1)
  {
    ToLowerLacks(Title1, 'y', 'Y');
  }

  lemma Title2LacksY()
    ensures 'y' !in ToLower(Title2)
  {
    ToLowerLacks(Title2, 'y', 'Y');
  }

  lemma Title3LacksY()
    ensures 'y' !in ToLower(Title3)
  {
    ToLowerLacks(Title3, 'y', 'Y');
  }

  lemma Title4LacksY()
    ensures 'y' !in ToLower(Title4)
  {
    ToLowerLacks(Title4, 'y', 'Y');
  }

  /** The two literal terms are already lower case. */
  lemma LowerTerms()
    ensures ToLower("javascript") == "javascript" && ToLower("xyz") == "xyz"
  {
  }

  /** A record whose lower-cased title lacks the `k`-th character of the
      lower-cased term is dropped. */
  lemma DroppedForLack(o: Opportunity, term: string, filters: seq<string>, k: int)
    requires 0 <= k < |term| && ToLower(term)[k] !in ToLower(o.title)
    ensures Keeps(o, term, filters) == []
  {
    LacksChar(o, term, k);
  }

  /** The course record matches the term `javascript` and passes `todas`
      filters. */
  lemma CourseMatchesJavascript(filters: seq<string>)
    requires forall i :: 0 <= i < |filters| ==> filters[i] == MatchAll
    ensures Keeps(Catalogue[0], "javascript", filters) == [Catalogue[0]]
  {
    LowerTerms();
    JavascriptInTitle0();
    assert OccursAt(ToLower("javascript"), ToLower(Catalogue[0].title), 9);
    assert MatchesFilters(Catalogue[0], filters);
  }

  /** Every title but the course's lacks a `j` or a `t`, so the term
      `javascript` drops those records. */
  lemma JavascriptDropsOthers(filters: seq<string>)
    ensures Keeps(Catalogue[1], "javascript", filters) == []
    ensures Keeps(Catalogue[2], "javascript", filters) == []
    ensures Keeps(Catalogue[3], "javascript", filters) == []
    ensures Keeps(Catalogue[4], "javascript", filters) == []
  {
    var t := "javascript";
    LowerTerms();
    assert Keeps(Catalogue[1], t, filters) == [] by {
      Title1LacksJ();
      DroppedForLack(Catalogue[1], t, filters, 0);
    }
    assert Keeps(Catalogue[2], t, filters) == [] by {
      Title2LacksJ();
      DroppedForLack(Catalogue[2], t, filters, 0);
    }
    assert Keeps(Catalogue[3], t, filters) == [] by {
      Title3LacksJ();
      DroppedForLack(Catalogue[3], t, filters, 0);
    }
    assert Keeps(Catalogue[4], t, filters) == [] by {
      Title4LacksT();
      DroppedForLack(Catalogue[4], t, filters, 9);
    }
  }

  /** The term `javascript` with no filters, or only `todas` filters, finds
      only the course record. */
  lemma JavascriptTerm(filters: seq<string>)
    requires forall i :: 0 <= i < |filters| ==> filters[i] == MatchAll
    ensures GenerateMockResults("javascript", filters) == [Catalogue[0]]
  {
    CourseMatchesJavascript(filters);
    JavascriptDropsOthers(filters);
    CatalogueResult("javascript", filters);
  }

  /** No title has a `y` in either case, so the term `xyz` drops every
      record. */
  lemma XyzDropsAll(filters: seq<string>)
    ensures Keeps(Catalogue[0], "xyz", filters) == []
    ensures Keeps(Catalogue[1], "xyz", filters) == []
    ensures Keeps(Catalogue[2], "xyz", filters) == []
    ensures Keeps(Catalogue[3], "xyz", filters) == []
    ensures Keeps(Catalogue[4], "xyz", filters) == []
  {
    var t := "xyz";
    LowerTerms();
    assert Keeps(Catalogue[0], t, filters) == [] by {
      Title0LacksY();
      DroppedForLack(Catalogue[0], t, filters, 1);
    }
    assert Keeps(Catalogue[1], t, filters) == [] by {
      Title1LacksY();
      DroppedForLack(Catalogue[1], t, filters, 1);
    }
    assert Keeps(Catalogue[2], t, filters) == [] by {
      Title2LacksY();
      DroppedForLack(Catalogue[2], t, filters, 1);
    }
    assert Keeps(Catalogue[3], t, filters) == [] by {
      Title3LacksY();
      DroppedForLack(Catalogue[3], t, filters, 1);
    }
    assert Keeps(Catalogue[4], t, filters) == [] by {
      Title4LacksY();
      DroppedForLack(Catalogue[4], t, filters, 1);
    }
  }

  /** The term `xyz` with any filters matches nothing. */
  lemma XyzTerm(filters: seq<string>)
    ensures GenerateMockResults("xyz", filters) == []
  {
    XyzDropsAll(filters);
    CatalogueResult("xyz", filters);
  }
}
