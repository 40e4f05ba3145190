/**
 * `finalize_income_estimates`: every row without an income yet gets a salary
 * drawn from the band of the first keyword (in table order) that occurs in its
 * lower-cased title, or from the default band; rows that get a salary and carry
 * a profile link are marked "Match Found".
 */
module Income {
  import opened Wrappers
  import opened Text
  import opened Records

  /** A salary range `(low, high)`, both ends included. */
  datatype Band = Band(lo: int, hi: int)

  /** `salary_ranges`, in the dictionary's insertion order, which is the order
      the keywords are tried in. */
  const SalaryTable: seq<(string, Band)> := [
    ("engineer", Band(85000, 150000)),
    ("software", Band(110000, 180000)),
    ("developer", Band(95000, 160000)),
    ("architect", Band(130000, 190000)),
    ("data scientist", Band(120000, 180000)),
    ("devops", Band(115000, 170000)),
    ("product manager", Band(125000, 190000)),
    ("analyst", Band(75000, 120000)),
    ("manager", Band(90000, 150000)),
    ("director", Band(140000, 220000)),
    ("executive", Band(180000, 300000)),
    ("ceo", Band(200000, 500000)),
    ("cfo", Band(180000, 350000)),
    ("cto", Band(160000, 300000)),
    ("vp", Band(150000, 280000)),
    ("finance", Band(90000, 160000)),
    ("accountant", Band(70000, 120000)),
    ("marketing", Band(75000, 130000)),
    ("sales", Band(65000, 140000)),
    ("account manager", Band(80000, 130000)),
    ("customer", Band(60000, 100000)),
    ("doctor", Band(180000, 350000)),
    ("physician", Band(200000, 400000)),
    ("nurse", Band(75000, 120000)),
    ("healthcare", Band(80000, 150000)),
    ("attorney", Band(130000, 250000)),
    ("lawyer", Band(120000, 240000)),
    ("legal", Band(100000, 200000)),
    ("professor", Band(80000, 150000)),
    ("teacher", Band(50000, 85000)),
    ("educator", Band(55000, 90000)),
    ("consultant", Band(90000, 170000)),
    ("advisor", Band(85000, 150000)),
    ("specialist", Band(70000, 120000)),
    ("researcher", Band(75000, 130000)),
    ("student", Band(0, 30000)),
    ("intern", Band(30000, 60000)),
    ("associate", Band(65000, 110000))
  ]

  /** `default_range`, for titles no keyword occurs in. */
  const DefaultBand: Band := Band(60000, 100000)

  /** Every band of the table is a non-empty range of non-negative salaries. */
  predicate WellFormed(table: seq<(string, Band)>)
  {
    forall k :: 0 <= k < |table| ==> 0 <= table[k].1.lo <= table[k].1.hi
  }

  lemma SalaryTableWellFormed()
    ensures WellFormed(SalaryTable)
  {
  }

  /** The index of the first keyword of `table` that occurs in `t`. */
  function FirstHit(t: string, table: seq<(string, Band)>): (k: Option<nat>)
    ensures k.Some? ==> k.value < |table| && Contains(t, table[k.value].0)
  {
    if table == [] then None
    else if Contains(t, table[0].0) then Some(0)
    else
      var k := FirstHit(t, table[1..]);
      if k.None? then None else Some(k.value + 1)
  }

  /** The search stops at the first keyword that occurs: no earlier keyword
      occurs, and when none is found no keyword occurs at all. */
  lemma {:induction false} FirstHitSpec(t: string, table: seq<(string, Band)>)
    ensures var k := FirstHit(t, table);
      && (k.Some? ==> forall j :: 0 <= j < k.value ==> !Contains(t, table[j].0))
      && (k.None? ==> forall j :: 0 <= j < |table| ==> !Contains(t, table[j].0))
  {
    if table != [] && !Contains(t, table[0].0) {
      FirstHitSpec(t, table[1..]);
      assert forall j :: 1 <= j < |table| ==> table[j] == table[1..][j - 1];
    }
  }

  /** The band a lower-cased title is priced with: the band of the first
      keyword that occurs in it, the default band when none does. */
  function BandOf(t: string, table: seq<(string, Band)>): (b: Band)
    ensures (forall k :: 0 <= k < |table| ==> !Contains(t, table[k].0)) ==> b == DefaultBand
    ensures (exists k :: 0 <= k < |table| && Contains(t, table[k].0)) ==>
      exists k :: 0 <= k < |table| && Contains(t, table[k].0) && b == table[k].1
                  && forall j :: 0 <= j < k ==> !Contains(t, table[j].0)
  {
    FirstHitSpec(t, table);
    var k := FirstHit(t, table);
    if k.None? then DefaultBand else table[k.value].1
  }

  /** The band `finalize_income_estimates` draws the salary of a row with this
      title from: always a non-empty range of non-negative salaries. */
  function TitleBand(title: string): (b: Band)
    ensures 0 <= b.lo <= b.hi
  {
    SalaryTableWellFormed();
    BandOfWellFormed(Lower(title), SalaryTable);
    BandOf(Lower(title), SalaryTable)
  }

  /** A well-formed table only ever gives a non-empty range of non-negative salaries. */
  lemma BandOfWellFormed(t: string, table: seq<(string, Band)>)
    requires WellFormed(table)
    ensures 0 <= BandOf(t, table).lo <= BandOf(t, table).hi
  {
  }

  /** A keyword that contains an earlier keyword is never the one that prices a
      title: the earlier one occurs wherever it does. */
  lemma Shadowed(t: string, table: seq<(string, Band)>, j: nat, k: nat)
    requires j < k < |table| && Contains(table[k].0, table[j].0)
    ensures FirstHit(t, table) != Some(k)
  {
    FirstHitSpec(t, table);
    if FirstHit(t, table) == Some(k) {
      ContainsTransitive(t, table[k].0, table[j].0);
    }
  }

  /** `"account manager"` never prices a title: `"manager"` comes earlier in
      the table and occurs in every title it occurs in. */
  lemma AccountManagerIsDead(t: string)
    ensures SalaryTable[19].0 == "account manager" && FirstHit(t, SalaryTable) != Some(19)
  {
    assert SalaryTable[8].0 == "manager" && SalaryTable[19].0 == "account manager";
    assert OccursAt("account manager", "manager", 8);
    ContainsAt("account manager", "manager");
    Shadowed(t, SalaryTable, 8, 19);
  }

  /** `"doctor"` never prices a title: `"cto"` comes earlier in the table and
      occurs in "doctor", so a doctor is priced as a chief technology officer
      unless a still earlier keyword occurs. */
  lemma DoctorIsDead(t: string)
    ensures SalaryTable[21].0 == "doctor" && FirstHit(t, SalaryTable) != Some(21)
  {
    assert SalaryTable[13].0 == "cto" && SalaryTable[21].0 == "doctor";
    assert OccursAt("doctor", "cto", 2);
    ContainsAt("doctor", "cto");
    Shadowed(t, SalaryTable, 13, 21);
  }

  /** Table order decides, not the most specific keyword: a software engineer is
      priced as an engineer. */
  lemma SoftwareEngineerBand()
    ensures TitleBand("Senior Software Engineer") == Band(85000, 150000)
  {
    var t := "senior software engineer";
    assert Lower("Senior Software Engineer") == t;
    assert SalaryTable[0] == ("engineer", Band(85000, 150000));
    assert OccursAt(t, "engineer", 16);
    ContainsAt(t, "engineer");
  }

  /** `t` occurs wherever a string holding it occurs. */
  lemma ContainsTransitive(s: string, mid: string, t: string)
    requires Contains(s, mid) && Contains(mid, t)
    ensures Contains(s, t)
  {
    ContainsAt(s, mid);
    ContainsAt(mid, t);
    var i :| OccursAt(s, mid, i);
    var j :| OccursAt(mid, t, j);
    assert mid == s[i..i + |mid|];
    forall k | 0 <= k < |t|
      ensures s[i + j + k] == t[k]
    {
      assert t[k] == mid[j + k];
      assert mid[j + k] == s[i..i + |mid|][j + k];
    }
    assert s[i + j..i + j + |t|] == t;
    assert OccursAt(s, t, i + j);
    ContainsAt(s, t);
  }

  /** What finalising does to one row: a row that has a salary is left alone; a
      row with an empty title (or, by the literal test, the title "Not Found"
      after lower-casing) is set to "Unknown"; any other row gets a salary in
      its title's band, and "Match Found" when it carries a profile link. */
  predicate Finalized(table: seq<(string, Band)>, before: Row, after: Row)
    ensures Finalized(table, before, after) && before.income == Unknown ==>
      (after.income.Dollars? <==> before.title != "")
    ensures Finalized(table, before, after) && after.status != before.status ==>
      after.status == Some(MatchFound) && before.url != "" && before.income == Unknown
    ensures Finalized(table, before, after) ==>
      && after.firstName == before.firstName && after.lastName == before.lastName && after.title == before.title
      && after.url == before.url && after.score == before.score && after.no == before.no
  {
    LowerNeverCapital(before.title);
    if before.income.Dollars? then after == before
    else
      var t := Lower(before.title);
      if t == NotFound || t == "" then after == before.(income := Unknown)
      else
        var band := BandOf(t, table);
        && after.income.Dollars?
        && band.lo <= after.income.amount <= band.hi
        && after == before.(income := after.income,
                            status := if before.url != "" then Some(MatchFound) else before.status)
  }

  /** `for keyword, salary_range in salary_ranges.items(): if keyword in title: ...; break`. */
  method MatchRange(t: string, table: seq<(string, Band)>) returns (matched: Option<Band>)
    ensures matched.None? <==> FirstHit(t, table).None?
    ensures matched.Some? ==> matched.value == table[FirstHit(t, table).value].1
  {
    var i := 0;
    while i < |table|
      invariant 0 <= i <= |table|
      invariant FirstHit(t, table) == Shift(FirstHit(t, table[i..]), i)
    {
      if Contains(t, table[i].0) {
        assert table[i..][0] == table[i];
        return Some(table[i].1);
      }
      assert table[i..][1..] == table[i + 1..];
      i := i + 1;
    }
    assert table[i..] == [];
    matched := None;
  }

  /** An index found in a suffix, as an index of the whole sequence. */
  function Shift(k: Option<nat>, offset: nat): Option<nat>
  {
    if k.None? then None else Some(k.value + offset)
  }

  /** The body of `finalize_income_estimates`'s loop for one row. The salary is
      drawn by `random.randint`, so any value of the band may be chosen. */
  method FinalizeRow(table: seq<(string, Band)>, r: Row) returns (after: Row)
    requires WellFormed(table)
    ensures Finalized(table, r, after)
  {
    after := r;
    if r.income.Unknown? {
      var t := Lower(r.title);
      if t == NotFound || t == "" {
        after := r.(income := Unknown);
      } else {
        var matched := MatchRange(t, table);
        var band := if matched.Some? then matched.value else DefaultBand;
        BandOfWellFormed(t, table);
        var salary :| band.lo <= salary <= band.hi;
        var status := if r.url != "" then Some(MatchFound) else r.status;
        after := r.(income := Dollars(salary), status := status);
      }
    }
  }

  /** `finalize_income_estimates(results)`, in place: each row is finalised and
      no row moves. */
  method FinalizeIncomeEstimates(results: array<Row>)
    modifies results
    ensures forall i :: 0 <= i < results.Length ==> Finalized(SalaryTable, old(results[i]), results[i])
  {
    SalaryTableWellFormed();
    var n := 0;
    while n < results.Length
      invariant 0 <= n <= results.Length
      invariant forall i :: 0 <= i < n ==> Finalized(SalaryTable, old(results[i]), results[i])
      invariant forall i :: n <= i < results.Length ==> results[i] == old(results[i])
    {
      results[n] := FinalizeRow(SalaryTable, results[n]);
      n := n + 1;
    }
  }

  /** Finalising twice is finalising once: the second pass finds every row
      either priced or with an empty title. */
  lemma FinalizedIdempotent(table: seq<(string, Band)>, before: Row, once: Row, twice: Row)
    requires Finalized(table, before, once) && Finalized(table, once, twice)
    ensures twice == once
  {
  }

  /** The guard `title == "Not Found"` compares the lower-cased title with a
      capitalised string, so it never holds: the "Not Found" and "Error"
      sentinel rows are priced, with a salary from the default band, and keep
      their status since they carry no profile link. */
  lemma SentinelsArePriced(before: Row, after: Row)
    requires before.title == NotFound || before.title == ErrorTitle
    requires before.income == Unknown && before.url == "" && Finalized(SalaryTable, before, after)
    ensures after.income.Dollars? && DefaultBand.lo <= after.income.amount <= DefaultBand.hi
    ensures after.status == before.status
  {
    LowerNeverCapital(before.title);
    SentinelsGetDefaultBand();
  }

  /** No keyword of the table occurs in "not found" or in "error", so both
      sentinel titles are priced with the default band. */
  lemma SentinelsGetDefaultBand()
    ensures TitleBand(NotFound) == DefaultBand
    ensures TitleBand(ErrorTitle) == DefaultBand
  {
    LowerSentinels();
    MarkedEngineering();
    MarkedManagement();
    MarkedExecutives();
    MarkedSales();
    MarkedHealthcare();
    MarkedLegalEducation();
    MarkedOther();
    NoKeywordHit(KeywordMarks, SalaryTable, "not found", 38);
    NoKeywordHit(KeywordMarks, SalaryTable, "error", 38);
  }

  lemma LowerSentinels()
    ensures Lower(NotFound) == "not found" && Lower(ErrorTitle) == "error"
  {
  }

  /** For each keyword of the table, in order, one of its letters that occurs
      in neither "not found" nor "error". */
  ghost const KeywordMarks: string := "gsvaavpamixcccviamsaccpshallpaccasssia"

  /** For each of the first thirteen keywords, one of its letters that does not
      occur in "doctor". */
  ghost const DoctorMarks: string := "eseaaepamieef"

  /** The `j`-th keyword of `table` holds the letter `marks[j]`, which `t` lacks. */
  ghost predicate Marked(marks: string, table: seq<(string, Band)>, t: string, j: int)
  {
    && 0 <= j < |marks| && j < |table|
    && marks[j] in table[j].0 && marks[j] !in t
  }

  lemma MarkedEngineering()
    ensures forall j :: 0 <= j < 7 ==> Marked(KeywordMarks, SalaryTable, "not found", j) && Marked(KeywordMarks, SalaryTable, "error", j)
  {
  }

  lemma MarkedManagement()
    ensures forall j :: 7 <= j < 12 ==> Marked(KeywordMarks, SalaryTable, "not found", j) && Marked(KeywordMarks, SalaryTable, "error", j)
  {
  }

  lemma MarkedExecutives()
    ensures forall j :: 12 <= j < 17 ==> Marked(KeywordMarks, SalaryTable, "not found", j) && Marked(KeywordMarks, SalaryTable, "error", j)
  {
  }

  lemma MarkedSales()
    ensures forall j :: 17 <= j < 21 ==> Marked(KeywordMarks, SalaryTable, "not found", j) && Marked(KeywordMarks, SalaryTable, "error", j)
  {
  }

  lemma MarkedHealthcare()
    ensures forall j :: 21 <= j < 25 ==> Marked(KeywordMarks, SalaryTable, "not found", j) && Marked(KeywordMarks, SalaryTable, "error", j)
  {
  }

  lemma MarkedLegalEducation()
    ensures forall j :: 25 <= j < 31 ==> Marked(KeywordMarks, SalaryTable, "not found", j) && Marked(KeywordMarks, SalaryTable, "error", j)
  {
  }

  lemma MarkedOther()
    ensures forall j :: 31 <= j < 38 ==> Marked(KeywordMarks, SalaryTable, "not found", j) && Marked(KeywordMarks, SalaryTable, "error", j)
  {
  }

  /** When each of the first `n` keywords has a letter that `t` lacks, none of
      them occurs in `t`. */
  lemma NoKeywordHit(marks: string, table: seq<(string, Band)>, t: string, n: nat)
    requires n <= |table|
    requires forall j :: 0 <= j < n ==> Marked(marks, table, t, j)
    ensures forall j :: 0 <= j < n ==> !Contains(t, table[j].0)
  {
    forall j | 0 <= j < n
      ensures !Contains(t, table[j].0)
    {
      assert Marked(marks, table, t, j);
      if Contains(t, table[j].0) {
        ContainsChars(t, table[j].0, marks[j]);
      }
    }
  }

  /** The search stops at keyword `n` exactly when it occurs and no earlier one does. */
  lemma HitAt(t: string, table: seq<(string, Band)>, n: nat)
    requires n < |table| && Contains(t, table[n].0)
    requires forall j :: 0 <= j < n ==> !Contains(t, table[j].0)
    ensures FirstHit(t, table) == Some(n)
  {
    FirstHitSpec(t, table);
  }

  /** "Doctor" is priced as a chief technology officer: `"cto"` occurs in it,
      and no keyword before `"cto"` does. */
  lemma DoctorBand()
    ensures TitleBand("Doctor") == Band(160000, 300000)
  {
    LowerDoctor();
    DoctorMarked();
    NoKeywordHit(DoctorMarks, SalaryTable, "doctor", 13);
    assert SalaryTable[13] == ("cto", Band(160000, 300000));
    assert OccursAt("doctor", "cto", 2);
    ContainsAt("doctor", "cto");
    HitAt("doctor", SalaryTable, 13);
  }

  lemma LowerDoctor()
    ensures Lower("Doctor") == "doctor"
  {
  }

  lemma DoctorMarked()
    ensures forall j :: 0 <= j < 13 ==> Marked(DoctorMarks, SalaryTable, "doctor", j)
  {
  }

  /** A lower-cased string is never the capitalised "Not Found", and it is
      empty only when the original is. */
  lemma LowerNeverCapital(s: string)
    ensures Lower(s) != NotFound
    ensures Lower(s) == "" <==> s == ""
  {
    if |s| > 0 {
      assert Lower(s)[0] != 'N' && NotFound[0] == 'N';
    }
  }
}
