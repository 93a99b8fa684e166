/**
 * The sidebar search: the roster entries whose name, lowercased, contains the
 * lowercased search term, in roster order.
 */
module Search {
  import opened Optional
  import opened Chat
  import opened Seqs
  import opened Text

  /**
   * `emp?.name && typeof emp.name === "string"`: the name is a string and not
   * empty, i.e. truthy in the same sense in which `||` falls back on it.
   */
  predicate HasName(e: Employee)
    ensures HasName(e) <==> OrElse(e.name, "") != ""
  {
    e.name.Some? && e.name.value != ""
  }

  /**
   * The filter callback for an already lowercased search string: a listed
   * name is at least as long as the search string.
   */
  predicate Matches(search: string, e: Employee)
    ensures Matches(search, e) ==> HasName(e) && |search| <= |e.name.value|
    ensures HasName(e) && search == [] ==> Matches(search, e)
  {
    HasName(e) && Includes(Lower(e.name.value), search)
  }

  /** `Matches` for a fixed search string, as a callback. */
  function MatchesSearch(search: string): Employee -> bool {
    e => Matches(search, e)
  }

  /**
   * `filteredEmployees`: the roster filtered by `(searchTerm || "").toLowerCase()`.
   * Only roster entries with a name are listed, and none that the term is longer than.
   */
  function FilterEmployees(employees: seq<Employee>, searchTerm: string): (listed: seq<Employee>)
    ensures |listed| <= |employees|
    ensures forall i :: 0 <= i < |listed| ==>
      listed[i] in employees && HasName(listed[i]) && |searchTerm| <= |listed[i].name.value|
  {
    Filter(MatchesSearch(Lower(searchTerm)), employees)
  }

  /** `needle` occurs somewhere in `haystack`. */
  ghost predicate ContainsSubstring(haystack: string, needle: string) {
    exists k :: OccursAt(haystack, needle, k)
  }

  /** What the search promises of an entry: a non-empty string name whose lowercase contains the lowercased term. */
  ghost predicate SearchHit(searchTerm: string, e: Employee) {
    HasName(e) && ContainsSubstring(Lower(e.name.value), Lower(searchTerm))
  }

  /** The filter callback decides exactly `SearchHit`. */
  lemma MatchesIffHit(searchTerm: string, e: Employee)
    ensures MatchesSearch(Lower(searchTerm))(e) <==> SearchHit(searchTerm, e)
  {
    if HasName(e) {
      IncludesIff(Lower(e.name.value), Lower(searchTerm));
    }
  }

  /** The search result lists roster entries in roster order. */
  lemma SearchKeepsOrder(employees: seq<Employee>, searchTerm: string)
    ensures IsSubsequence(FilterEmployees(employees, searchTerm), employees)
  {
    FilterIsSubsequence(MatchesSearch(Lower(searchTerm)), employees);
  }

  /** Every listed entry has a non-empty string name in whose lowercase form the lowercased term occurs. */
  lemma SearchSound(employees: seq<Employee>, searchTerm: string)
    ensures forall e :: e in FilterEmployees(employees, searchTerm) ==> SearchHit(searchTerm, e)
  {
    forall e | e in FilterEmployees(employees, searchTerm)
      ensures SearchHit(searchTerm, e)
    {
      MatchesIffHit(searchTerm, e);
    }
  }

  /** Every roster entry the term hits is listed, as often as the roster holds it. */
  lemma SearchComplete(employees: seq<Employee>, searchTerm: string)
    ensures forall i :: 0 <= i < |employees| && SearchHit(searchTerm, employees[i]) ==>
      multiset(FilterEmployees(employees, searchTerm))[employees[i]] == multiset(employees)[employees[i]]
  {
    var p := MatchesSearch(Lower(searchTerm));
    FilterCounts(p, employees);
    forall i | 0 <= i < |employees| && SearchHit(searchTerm, employees[i])
      ensures multiset(FilterEmployees(employees, searchTerm))[employees[i]] == multiset(employees)[employees[i]]
    {
      MatchesIffHit(searchTerm, employees[i]);
    }
  }

  /** An entry without a non-empty string name is never listed, whatever the search term. */
  lemma UnnamedNeverListed(employees: seq<Employee>, searchTerm: string, e: Employee)
    requires !HasName(e)
    ensures e !in FilterEmployees(employees, searchTerm)
  {
  }

  /** With an empty search term the sidebar lists exactly the entries that have a name. */
  lemma {:induction false} EmptySearchListsNamed(employees: seq<Employee>)
    ensures FilterEmployees(employees, "") == Filter(HasName, employees)
  {
    if employees != [] {
      EmptySearchListsNamed(employees[1..]);
    }
  }

  /** Only the lowercase form of the term matters: the search is case-insensitive in the term. */
  lemma SearchIgnoresTermCase(employees: seq<Employee>, searchTerm: string)
    ensures FilterEmployees(employees, searchTerm) == FilterEmployees(employees, Lower(searchTerm))
  {
    LowerIdempotent(searchTerm);
  }

  /** "da" over the roster Dana, Alex, dave lists Dana and dave, in that order. */
  lemma SearchExample(dana: Employee, alex: Employee, dave: Employee)
    requires dana.name == Some("Dana") && alex.name == Some("Alex") && dave.name == Some("dave")
    ensures FilterEmployees([dana, alex, dave], "da") == [dana, dave]
  {
    var p := MatchesSearch("da");
    LowerDa();
    DanaAndDaveHit();
    AlexMisses();
    assert p(dana) && p(dave) && !p(alex);
    assert Filter(p, [dave]) == [dave] by {
      assert [dave][1..] == [];
    }
    assert Filter(p, [alex, dave]) == [dave] by {
      assert [alex, dave][1..] == [dave];
    }
    assert [dana, alex, dave][1..] == [alex, dave];
  }

  /** The term "da" is already lower case. */
  lemma LowerDa()
    ensures Lower("da") == "da"
  {
    assert Lower("a") == "a";
  }

  /** "dana" and "dave" both start with "da". */
  lemma DanaAndDaveHit()
    ensures Includes(Lower("Dana"), "da") && Includes(Lower("dave"), "da")
  {
    assert StartsWith(Lower("Dana"), "da") by {
      assert Lower("Dana")[..2] == "da";
    }
    assert StartsWith(Lower("dave"), "da") by {
      assert Lower("dave")[..2] == "da";
    }
  }

  /** "alex" does not contain "da". */
  lemma AlexMisses()
    ensures !Includes(Lower("Alex"), "da")
  {
    var h := Lower("Alex");
    assert h == "alex" by {
      assert Lower("x") == "x";
      assert Lower("ex") == "ex";
    }
    assert !StartsWith(h, "da");
    assert h[1..] == "lex" && !StartsWith("lex", "da");
    assert "lex"[1..] == "ex" && !StartsWith("ex", "da");
    assert "ex"[1..] == "x" && !StartsWith("x", "da");
    assert "x"[1..] == "" && !StartsWith("", "da");
  }
}
