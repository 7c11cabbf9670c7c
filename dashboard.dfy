/** The dashboard: the employee table as the database returns it, narrowed by the page's filters,
    and the figures, tables and counts the page draws from what is left. */
module Dashboard {
  import opened Wrappers
  import opened Sequences
  import opened Strings
  import Importer

  /** One row of the dashboard's query over Employees; a NULL column is None. */
  datatype Employee = Employee(name: Option<string>, role: Option<string>, location: Option<string>,
                               experienceYears: Option<real>, compensation: Option<real>,
                               status: Option<string>)

  // ---------------------------------------------------------------------------------------------
  // Boolean masks and selection

  /** The boolean masks the page builds. pandas compares a missing value with anything as False,
      except that `isin` matches a missing value against a missing entry of the list. */
  datatype Mask =
    | ActiveStatus                                                            // Status lower-cased is "active"
    | RoleIs(role: string)                                                    // Role equals the selection
    | LocationIs(location: Option<string>)                                    // Location equals the selection
    | RoleLocationIn(roles: seq<Option<string>>, locations: seq<Option<string>>) // both `isin`

  predicate Keeps(m: Mask, e: Employee) {
    match m
    case ActiveStatus => e.status.Some? && ToLower(e.status.value) == "active"
    case RoleIs(v) => e.role == Some(v)
    case LocationIs(l) => l.Some? && e.location == l
    case RoleLocationIn(roles, locations) => e.role in roles && e.location in locations
  }

  /** `df[mask]`: the rows the mask keeps, in their order. */
  function Where(rs: seq<Employee>, m: Mask): (w: seq<Employee>)
    ensures |w| <= |rs|
    ensures forall k :: 0 <= k < |w| ==> Keeps(m, w[k])
  {
    if rs == [] then [] else (if Keeps(m, rs[0]) then [rs[0]] else []) + Where(rs[1..], m)
  }

  /** A selection keeps rows in their order and adds none. */
  lemma {:induction false} WhereSubsequence(rs: seq<Employee>, m: Mask)
    ensures IsSubsequence(Where(rs, m), rs)
    decreases |rs|
  {
    if rs != [] {
      WhereSubsequence(rs[1..], m);
      var w := Where(rs, m);
      if Keeps(m, rs[0]) {
        assert w[0] == rs[0] && w[1..] == Where(rs[1..], m);
      } else {
        assert w == Where(rs[1..], m);
      }
    }
  }

  /** Selecting from two blocks of rows is selecting from each block, in turn. */
  lemma {:induction false} WhereAppend(a: seq<Employee>, b: seq<Employee>, m: Mask)
    ensures Where(a + b, m) == Where(a, m) + Where(b, m)
    decreases |a|
  {
    if a == [] {
      assert a + b == b;
    } else {
      assert (a + b)[1..] == a[1..] + b;
      WhereAppend(a[1..], b, m);
      AppendAssociative(if Keeps(m, a[0]) then [a[0]] else [], Where(a[1..], m), Where(b, m));
    }
  }

  /** A selection keeps every copy of a row the mask keeps and no copy of any other row, so
      repeated rows are kept as often as they occur. */
  lemma {:induction false} WhereCount(rs: seq<Employee>, m: Mask, e: Employee)
    ensures multiset(Where(rs, m))[e] == if Keeps(m, e) then multiset(rs)[e] else 0
    decreases |rs|
  {
    if rs != [] {
      WhereCount(rs[1..], m, e);
      assert rs == [rs[0]] + rs[1..];
      assert multiset(rs) == multiset{rs[0]} + multiset(rs[1..]);
      var head := if Keeps(m, rs[0]) then [rs[0]] else [];
      assert multiset(Where(rs, m)) == multiset(head) + multiset(Where(rs[1..], m));
    }
  }

  /** A row is selected exactly when it is one of the rows and the mask keeps it. */
  lemma {:induction false} WhereMembers(rs: seq<Employee>, m: Mask, e: Employee)
    ensures e in Where(rs, m) <==> e in rs && Keeps(m, e)
    decreases |rs|
  {
    if rs != [] {
      WhereMembers(rs[1..], m, e);
      assert e in rs <==> e == rs[0] || e in rs[1..];
    }
  }

  /** A mask that keeps every row selects the whole table. */
  lemma {:induction false} WhereAll(rs: seq<Employee>, m: Mask)
    requires forall k :: 0 <= k < |rs| ==> Keeps(m, rs[k])
    ensures Where(rs, m) == rs
    decreases |rs|
  {
    if rs != [] {
      WhereAll(rs[1..], m);
      assert [rs[0]] + rs[1..] == rs;
    }
  }

  /** A mask that keeps no row selects nothing. */
  lemma {:induction false} WhereNone(rs: seq<Employee>, m: Mask)
    requires forall k :: 0 <= k < |rs| ==> !Keeps(m, rs[k])
    ensures Where(rs, m) == []
    decreases |rs|
  {
    if rs != [] {
      WhereNone(rs[1..], m);
    }
  }

  /** Applying the same mask again changes nothing. */
  lemma WhereIdempotent(rs: seq<Employee>, m: Mask)
    ensures Where(Where(rs, m), m) == Where(rs, m)
  {
    var w := Where(rs, m);
    forall k | 0 <= k < |w|
      ensures Keeps(m, w[k])
    {
      WhereMembers(rs, m, w[k]);
    }
    WhereAll(w, m);
  }

  /** Selecting from a row followed by more rows. */
  lemma WhereCons(r: Employee, rest: seq<Employee>, m: Mask)
    ensures Where([r] + rest, m) == (if Keeps(m, r) then [r] else []) + Where(rest, m)
  {
    assert ([r] + rest)[1..] == rest;
  }

  /** Two masks can be applied in either order. */
  lemma {:induction false} WhereCommute(rs: seq<Employee>, a: Mask, b: Mask)
    ensures Where(Where(rs, a), b) == Where(Where(rs, b), a)
    decreases |rs|
  {
    if rs != [] {
      WhereCommute(rs[1..], a, b);
      var r, wa, wb := rs[0], Where(rs[1..], a), Where(rs[1..], b);
      var both := if Keeps(a, r) && Keeps(b, r) then [r] else [];
      if Keeps(a, r) {
        assert Where(rs, a) == [r] + wa;
        WhereCons(r, wa, b);
      } else {
        assert Where(rs, a) == wa;
      }
      if Keeps(b, r) {
        assert Where(rs, b) == [r] + wb;
        WhereCons(r, wb, a);
      } else {
        assert Where(rs, b) == wb;
      }
      assert Where(Where(rs, a), b) == both + Where(wa, b);
      assert Where(Where(rs, b), a) == both + Where(wb, a);
    }
  }

  // ---------------------------------------------------------------------------------------------
  // Column values

  /** The two columns the page can break the experience counts down by. */
  datatype Dimension = ByLocation | ByRole

  function Field(e: Employee, d: Dimension): Option<string> {
    match d
    case ByLocation => e.location
    case ByRole => e.role
  }

  /** One column of the working set, missing values included. */
  function Column(rs: seq<Employee>, d: Dimension): (c: seq<Option<string>>)
    ensures |c| == |rs| && forall k :: 0 <= k < |rs| ==> c[k] == Field(rs[k], d)
  {
    seq(|rs|, k requires 0 <= k < |rs| => Field(rs[k], d))
  }

  /** `dropna()`: the present values, in order. */
  function Present(xs: seq<Option<string>>): (p: seq<string>)
    ensures forall v :: v in p <==> Some(v) in xs
  {
    if xs == [] then []
    else
      var rest := Present(xs[1..]);
      assert forall x :: x in xs <==> x == xs[0] || x in xs[1..];
      if xs[0].Some? then [xs[0].value] + rest else rest
  }

  predicate NoDuplicates<T(==)>(s: seq<T>) {
    forall i, j :: 0 <= i < j < |s| ==> s[i] != s[j]
  }

  /** `unique()`: each value once, at the place it first occurs. */
  function Distinct<T(==,!new)>(xs: seq<T>): (d: seq<T>)
    ensures forall x :: x in d <==> x in xs
    ensures NoDuplicates(d)
    decreases |xs|
  {
    if xs == [] then []
    else
      var init := xs[..|xs| - 1];
      var d := Distinct(init);
      assert xs == init + [xs[|xs| - 1]];
      if xs[|xs| - 1] in d then d else d + [xs[|xs| - 1]]
  }

  /** `df[column].dropna().unique()`: the values a column actually holds. */
  function Values(rs: seq<Employee>, d: Dimension): (vs: seq<string>)
    ensures NoDuplicates(vs)
    ensures forall v :: v in vs <==> exists k :: 0 <= k < |rs| && Field(rs[k], d) == Some(v)
  {
    var vs := Distinct(Present(Column(rs, d)));
    assert forall v :: v in vs <==> Some(v) in Column(rs, d);
    vs
  }

  /** Every row's value of a column is among that column's distinct values. */
  lemma ColumnMember(rs: seq<Employee>, d: Dimension, k: nat)
    requires k < |rs|
    ensures Field(rs[k], d) in Distinct(Column(rs, d))
  {
    assert Column(rs, d)[k] == Field(rs[k], d);
  }

  // ---------------------------------------------------------------------------------------------
  // The two filters of the working set

  /** `load_data`: every row, or only those whose status reads "active" in any letter case. */
  function Load(table: seq<Employee>, includeInactive: bool): (df: seq<Employee>)
    ensures |df| <= |table|
    ensures includeInactive ==> df == table
    ensures !includeInactive ==> forall k :: 0 <= k < |df| ==> Keeps(ActiveStatus, df[k])
  {
    if includeInactive then table else Where(table, ActiveStatus)
  }

  /** With inactive employees included nothing is dropped; without, exactly the rows whose status
      lower-cases to "active" remain; either way the order is kept and nothing is added. */
  lemma LoadSelects(table: seq<Employee>, includeInactive: bool, e: Employee)
    ensures IsSubsequence(Load(table, includeInactive), table)
    ensures includeInactive ==> Load(table, includeInactive) == table
    ensures !includeInactive ==>
      (e in Load(table, includeInactive) <==> e in table && e.status.Some? && ToLower(e.status.value) == "active")
    ensures !includeInactive ==>
      multiset(Load(table, includeInactive))[e] == if Keeps(ActiveStatus, e) then multiset(table)[e] else 0
  {
    if includeInactive {
      SubsequenceReflexive(table);
    } else {
      WhereSubsequence(table, ActiveStatus);
      WhereMembers(table, ActiveStatus, e);
      WhereCount(table, ActiveStatus, e);
    }
  }

  /** The role filter: "All" keeps the working set, any other choice keeps the rows with that Role. */
  function FilterRole(df: seq<Employee>, selected: string): (r: seq<Employee>)
    ensures |r| <= |df|
    ensures selected == "All" ==> r == df
    ensures selected != "All" ==> forall k :: 0 <= k < |r| ==> r[k].role == Some(selected)
  {
    if selected == "All" then df else Where(df, RoleIs(selected))
  }

  lemma FilterRoleSelects(df: seq<Employee>, selected: string, e: Employee)
    ensures IsSubsequence(FilterRole(df, selected), df)
    ensures selected == "All" ==> FilterRole(df, selected) == df
    ensures selected != "All" ==> (e in FilterRole(df, selected) <==> e in df && e.role == Some(selected))
    ensures selected != "All" ==>
      multiset(FilterRole(df, selected))[e] == if e.role == Some(selected) then multiset(df)[e] else 0
    ensures FilterRole(FilterRole(df, selected), selected) == FilterRole(df, selected)
  {
    if selected == "All" {
      SubsequenceReflexive(df);
    } else {
      WhereSubsequence(df, RoleIs(selected));
      WhereMembers(df, RoleIs(selected), e);
      WhereCount(df, RoleIs(selected), e);
      WhereIdempotent(df, RoleIs(selected));
    }
  }

  /** The role choices the page offers: "All", then every Role the working set holds. */
  function RoleOptions(df: seq<Employee>): (options: seq<string>)
    ensures |options| > 0 && options[0] == "All"
    ensures forall v :: v in options[1..] <==> exists k :: 0 <= k < |df| && df[k].role == Some(v)
  {
    ["All"] + Values(df, ByRole)
  }

  /** Choosing an offered Role other than "All" never empties the working set. */
  lemma RoleChoiceNonEmpty(df: seq<Employee>, selected: string)
    requires selected in RoleOptions(df)
    ensures FilterRole(df, selected) == [] ==> df == []
  {
    if selected != "All" {
      assert selected in RoleOptions(df)[1..];
      var k :| 0 <= k < |df| && df[k].role == Some(selected);
      WhereMembers(df, RoleIs(selected), df[k]);
    }
  }

  /** An imported row is shown with inactive employees excluded exactly when the importer wrote
      "Active" for it: the two status words the importer writes survive the page's lower-casing. */
  lemma ImportedStatusShown(c: Importer.Cell, e: Employee)
    requires e.status == Some(Importer.NormaliseStatus(c))
    ensures Keeps(ActiveStatus, e) <==> Importer.NormaliseStatus(c) == "Active"
  {
    var w := e.status.value;
    if w == "Active" {
      ActiveLower(w);
    } else {
      assert |ToLower(w)| == 8;
    }
  }

  lemma ActiveLower(w: string)
    requires w == "Active"
    ensures ToLower(w) == "active"
  {
    var l := ToLower(w);
    assert l[0] == 'a';
  }

  // ---------------------------------------------------------------------------------------------
  // Average compensation

  /** The present Compensation values of the rows, in order: what `mean` averages. */
  function Compensations(rs: seq<Employee>): (cs: seq<real>)
    ensures |cs| <= |rs|
  {
    if rs == [] then []
    else (if rs[0].compensation.Some? then [rs[0].compensation.value] else []) + Compensations(rs[1..])
  }

  function Sum(xs: seq<real>): real {
    if xs == [] then 0.0 else xs[0] + Sum(xs[1..])
  }

  /** pandas' `mean`: None, pandas' NaN, when there is nothing to average. */
  function Mean(xs: seq<real>): (m: Option<real>)
    ensures m.None? <==> xs == []
  {
    if xs == [] then None else Some(Sum(xs) / |xs| as real)
  }

  /** The sum of values that all lie between `lo` and `hi` lies between `|xs|` times each. */
  lemma {:induction false} SumBounds(xs: seq<real>, lo: real, hi: real)
    requires forall k :: 0 <= k < |xs| ==> lo <= xs[k] <= hi
    ensures lo * |xs| as real <= Sum(xs) <= hi * |xs| as real
    decreases |xs|
  {
    if xs != [] {
      SumBounds(xs[1..], lo, hi);
      assert lo * |xs| as real == lo + lo * |xs[1..]| as real;
      assert hi * |xs| as real == hi + hi * |xs[1..]| as real;
    }
  }

  /** The mean lies between the smallest and the largest value. */
  lemma MeanBounds(xs: seq<real>, lo: real, hi: real)
    requires xs != [] && forall k :: 0 <= k < |xs| ==> lo <= xs[k] <= hi
    ensures lo <= Mean(xs).value <= hi
  {
    SumBounds(xs, lo, hi);
    var n := |xs| as real;
    var m := Sum(xs) / n;
    assert m * n == Sum(xs);
    if m < lo {
      assert m * n < lo * n;
    }
    if m > hi {
      assert m * n > hi * n;
    }
  }

  /** The headline figure: the mean Compensation of the working-set rows at the chosen Location.
      No Location to choose, or none of its rows with a Compensation, gives None. */
  function HeadlineMean(df: seq<Employee>, location: Option<string>): (m: Option<real>)
    ensures location.None? ==> m.None?
  {
    if location.None? then None else Mean(Compensations(Where(df, LocationIs(location))))
  }

  /** There is no headline figure exactly when no row at the location has a Compensation. */
  lemma HeadlineMissing(df: seq<Employee>, location: Option<string>)
    ensures HeadlineMean(df, location).None? <==>
      forall e :: e in df && Keeps(LocationIs(location), e) ==> e.compensation.None?
  {
    if location.Some? {
      CompensationsMissing(df, LocationIs(location));
    }
  }

  lemma CompensationsCons(r: Employee, rest: seq<Employee>)
    ensures Compensations([r] + rest)
      == (if r.compensation.Some? then [r.compensation.value] else []) + Compensations(rest)
  {
    assert ([r] + rest)[1..] == rest;
  }

  lemma {:induction false} CompensationsMissing(rs: seq<Employee>, m: Mask)
    ensures Compensations(Where(rs, m)) == [] <==>
      forall e :: e in rs && Keeps(m, e) ==> e.compensation.None?
    decreases |rs|
  {
    if rs != [] {
      CompensationsMissing(rs[1..], m);
      var w, w' := Where(rs, m), Where(rs[1..], m);
      if Keeps(m, rs[0]) {
        assert w == [rs[0]] + w';
        CompensationsCons(rs[0], w');
      } else {
        assert w == w';
      }
      assert forall e :: e in rs <==> e == rs[0] || e in rs[1..];
    }
  }

  // ---------------------------------------------------------------------------------------------
  // Average compensation per location

  /** The running totals of one location: the sum of the present Compensation values and how
      many there are. */
  datatype Tally = Tally(sum: real, count: nat)

  /** `groupby('Location')['Compensation']` in one pass over the rows: every present Location gets
      a tally, even one whose rows have no Compensation. */
  function Tallies(rs: seq<Employee>): (tallies: map<string, Tally>)
    ensures forall l :: l in tallies <==> exists k :: 0 <= k < |rs| && rs[k].location == Some(l)
    ensures forall l :: l in tallies ==> tallies[l].count <= |rs|
    decreases |rs|
  {
    if rs == [] then map[]
    else
      var t := Tallies(rs[1..]);
      assert forall k :: 1 <= k < |rs| ==> rs[1..][k - 1] == rs[k];
      match rs[0].location
      case None => t
      case Some(l) =>
        var prior := if l in t then t[l] else Tally(0.0, 0);
        t[l := match rs[0].compensation
               case None => prior
               case Some(c) => Tally(c + prior.sum, prior.count + 1)]
  }

  /** The per-location chart: `groupby('Location')['Compensation'].mean()`. */
  function LocationMeans(rs: seq<Employee>): (means: map<string, Option<real>>)
    ensures forall l :: l in means <==> exists k :: 0 <= k < |rs| && rs[k].location == Some(l)
  {
    var t := Tallies(rs);
    map l | l in t :: if t[l].count == 0 then None else Some(t[l].sum / t[l].count as real)
  }

  /** The tally of the first row's Location after that row has been added. */
  lemma TallyHead(rs: seq<Employee>, l: string)
    requires rs != [] && rs[0].location == Some(l)
    ensures l in Tallies(rs)
    ensures var t := Tallies(rs[1..]);
      var prior := if l in t then t[l] else Tally(0.0, 0);
      Tallies(rs)[l] == if rs[0].compensation.Some? then Tally(rs[0].compensation.value + prior.sum, prior.count + 1) else prior
  {
  }

  /** A row at another Location leaves the tally of `l` alone. */
  lemma TallyOther(rs: seq<Employee>, l: string)
    requires rs != [] && rs[0].location != Some(l)
    ensures l in Tallies(rs) <==> l in Tallies(rs[1..])
    ensures l in Tallies(rs) ==> Tallies(rs)[l] == Tallies(rs[1..])[l]
  {
  }

  /** The one-pass tally of a location is the sum and the number of the Compensation values of
      the rows at that location; a location has a tally exactly when some row is there. */
  lemma {:induction false} TalliesMatch(rs: seq<Employee>, l: string)
    ensures l in Tallies(rs) <==> Where(rs, LocationIs(Some(l))) != []
    ensures l in Tallies(rs) ==>
      Tallies(rs)[l] == Tally(Sum(Compensations(Where(rs, LocationIs(Some(l))))),
                              |Compensations(Where(rs, LocationIs(Some(l))))|)
    decreases |rs|
  {
    if rs != [] {
      TalliesMatch(rs[1..], l);
      var w := Where(rs, LocationIs(Some(l)));
      var w' := Where(rs[1..], LocationIs(Some(l)));
      if rs[0].location == Some(l) {
        assert w == [rs[0]] + w';
        TallyHead(rs, l);
        var cs := Compensations(w');
        CompensationsCons(rs[0], w');
        var t := Tallies(rs[1..]);
        var prior := if l in t then t[l] else Tally(0.0, 0);
        assert prior == Tally(Sum(cs), |cs|);
        if rs[0].compensation.Some? {
          var c := rs[0].compensation.value;
          assert Compensations(w) == [c] + cs;
          assert ([c] + cs)[1..] == cs;
        } else {
          assert Compensations(w) == [] + cs == cs;
        }
      } else {
        assert w == w';
        TallyOther(rs, l);
      }
    }
  }

  /** The per-location chart has a bar for every Location the working set holds and no other,
      and each bar is the headline figure that choosing that Location would show. */
  lemma LocationMeansHeadline(rs: seq<Employee>, l: string)
    ensures l in LocationMeans(rs) <==> l in Values(rs, ByLocation)
    ensures l in LocationMeans(rs) ==> LocationMeans(rs)[l] == HeadlineMean(rs, Some(l))
  {
    TalliesMatch(rs, l);
    var w := Where(rs, LocationIs(Some(l)));
    if w != [] {
      WhereMembers(rs, LocationIs(Some(l)), w[0]);
      var k :| 0 <= k < |rs| && rs[k] == w[0];
    }
    if l in Values(rs, ByLocation) {
      var k :| 0 <= k < |rs| && rs[k].location == Some(l);
      WhereMembers(rs, LocationIs(Some(l)), rs[k]);
    }
  }

  // ---------------------------------------------------------------------------------------------
  // The export filter

  /** The export set: rows whose Role is among the chosen roles and whose Location is among the
      chosen locations. */
  function Export(df: seq<Employee>, roles: seq<Option<string>>, locations: seq<Option<string>>): (x: seq<Employee>)
    ensures |x| <= |df|
    ensures forall k :: 0 <= k < |x| ==> x[k].role in roles && x[k].location in locations
  {
    Where(df, RoleLocationIn(roles, locations))
  }

  lemma ExportSelects(df: seq<Employee>, roles: seq<Option<string>>, locations: seq<Option<string>>, e: Employee)
    ensures IsSubsequence(Export(df, roles, locations), df)
    ensures e in Export(df, roles, locations) <==> e in df && e.role in roles && e.location in locations
    ensures multiset(Export(df, roles, locations))[e]
      == if e.role in roles && e.location in locations then multiset(df)[e] else 0
    ensures roles == [] || locations == [] ==> Export(df, roles, locations) == []
  {
    WhereSubsequence(df, RoleLocationIn(roles, locations));
    WhereMembers(df, RoleLocationIn(roles, locations), e);
    WhereCount(df, RoleLocationIn(roles, locations), e);
    if roles == [] || locations == [] {
      WhereNone(df, RoleLocationIn(roles, locations));
    }
  }

  /** The default choices, every Role and every Location the working set holds, export all of it. */
  lemma ExportDefaults(df: seq<Employee>)
    ensures Export(df, Distinct(Column(df, ByRole)), Distinct(Column(df, ByLocation))) == df
  {
    var m := RoleLocationIn(Distinct(Column(df, ByRole)), Distinct(Column(df, ByLocation)));
    forall k | 0 <= k < |df|
      ensures Keeps(m, df[k])
    {
      ColumnMember(df, ByRole, k);
      ColumnMember(df, ByLocation, k);
    }
    WhereAll(df, m);
  }

  // ---------------------------------------------------------------------------------------------
  // Experience ranges

  /** The lower edges of the six ranges; the last range has no upper edge (`float('inf')`). */
  const Edges: seq<real> := [0.0, 1.0, 2.0, 5.0, 10.0, 20.0]

  /** `x` lies in range `i`, which is closed below and open above (`right=False`). */
  predicate InRange(i: nat, x: real)
    requires i < 6
  {
    Edges[i] <= x && (i == 5 || x < Edges[i + 1])
  }

  /** `pd.cut` of one ExperienceYears value: the index of its range, or None for a missing or
      negative value. */
  function Bucket(x: Option<real>): (b: Option<nat>)
    ensures b.Some? <==> x.Some? && x.value >= 0.0
    ensures b.Some? ==> b.value < 6
  {
    match x
    case None => None
    case Some(v) =>
      if v < 0.0 then None
      else if v < 1.0 then Some(0)
      else if v < 2.0 then Some(1)
      else if v < 5.0 then Some(2)
      else if v < 10.0 then Some(3)
      else if v < 20.0 then Some(4)
      else Some(5)
  }

  /** A value goes to range `i` exactly when it lies between that range's edges. */
  lemma BucketInRange(x: real, i: nat)
    requires i < 6
    ensures Bucket(Some(x)) == Some(i) <==> InRange(i, x)
  {
  }

  /** The ranges do not overlap, so a value is in at most one of them. */
  lemma RangesDisjoint(x: real, i: nat, j: nat)
    requires i < 6 && j < 6 && InRange(i, x) && InRange(j, x)
    ensures i == j
  {
    BucketInRange(x, i);
    BucketInRange(x, j);
  }

  /** A larger value is never in a lower range. */
  lemma BucketMonotone(x: real, y: real)
    requires 0.0 <= x <= y
    ensures Bucket(Some(x)).value <= Bucket(Some(y)).value
  {
  }

  /** The `ExperienceRange` column the page adds to the working set. */
  function Ranges(rs: seq<Employee>): (r: seq<Option<nat>>)
    ensures |r| == |rs| && forall k :: 0 <= k < |rs| ==> r[k] == Bucket(rs[k].experienceYears)
  {
    seq(|rs|, k requires 0 <= k < |rs| => Bucket(rs[k].experienceYears))
  }

  // ---------------------------------------------------------------------------------------------
  // Counts per experience range

  function SumNat(xs: seq<nat>): nat {
    if xs == [] then 0 else xs[0] + SumNat(xs[1..])
  }

  /** Rows in range `i`. */
  function CountRange(rs: seq<Employee>, i: nat): nat {
    if rs == [] then 0 else (if Bucket(rs[0].experienceYears) == Some(i) then 1 else 0) + CountRange(rs[1..], i)
  }

  /** Rows with a range at all: those whose ExperienceYears is present and not negative. */
  function CountRanged(rs: seq<Employee>): nat {
    if rs == [] then 0 else (if Bucket(rs[0].experienceYears).Some? then 1 else 0) + CountRanged(rs[1..])
  }

  /** `groupby('ExperienceRange').size()`: one count per range, empty ranges included. */
  function RangeCounts(rs: seq<Employee>): (counts: seq<nat>)
    ensures |counts| == 6 && forall i :: 0 <= i < 6 ==> counts[i] == CountRange(rs, i)
  {
    seq(6, i requires 0 <= i < 6 => CountRange(rs, i))
  }

  lemma SumSix(xs: seq<nat>)
    requires |xs| == 6
    ensures SumNat(xs) == xs[0] + xs[1] + xs[2] + xs[3] + xs[4] + xs[5]
  {
    var s1 := xs[1..];
    var s2 := s1[1..];
    var s3 := s2[1..];
    var s4 := s3[1..];
    var s5 := s4[1..];
    assert s5[1..] == [];
    assert SumNat(s5) == xs[5] + SumNat(s5[1..]);
    assert SumNat(s4) == xs[4] + SumNat(s5);
    assert SumNat(s3) == xs[3] + SumNat(s4);
    assert SumNat(s2) == xs[2] + SumNat(s3);
    assert SumNat(s1) == xs[1] + SumNat(s2);
  }

  /** The counts add up to the number of rows that have a range: a missing or negative value is
      counted nowhere. */
  lemma {:induction false} RangeCountsTotal(rs: seq<Employee>)
    ensures SumNat(RangeCounts(rs)) == CountRanged(rs)
    decreases |rs|
  {
    SumSix(RangeCounts(rs));
    if rs != [] {
      RangeCountsTotal(rs[1..]);
      SumSix(RangeCounts(rs[1..]));
    }
  }

  /** Rows in range `i` whose value of `d` is `v`; with `v` None, those the breakdown drops. */
  function CountRangeField(rs: seq<Employee>, d: Dimension, i: nat, v: Option<string>): nat {
    if rs == [] then 0
    else (if Bucket(rs[0].experienceYears) == Some(i) && Field(rs[0], d) == v then 1 else 0)
         + CountRangeField(rs[1..], d, i, v)
  }

  /** Rows in range `i` whose value of `d` is present. */
  function CountRangePresent(rs: seq<Employee>, d: Dimension, i: nat): nat {
    if rs == [] then 0
    else (if Bucket(rs[0].experienceYears) == Some(i) && Field(rs[0], d).Some? then 1 else 0)
         + CountRangePresent(rs[1..], d, i)
  }

  /** The rows of a range are those with a value of `d` and those without one. */
  lemma {:induction false} RangeSplitsByPresence(rs: seq<Employee>, d: Dimension, i: nat)
    ensures CountRangePresent(rs, d, i) + CountRangeField(rs, d, i, None) == CountRange(rs, i)
    decreases |rs|
  {
    if rs != [] {
      RangeSplitsByPresence(rs[1..], d, i);
    }
  }

  /** One line of the broken-down chart: for range `i`, the count of every value in `vs`. */
  function BreakdownLine(rs: seq<Employee>, d: Dimension, i: nat, vs: seq<string>): (line: seq<nat>)
    ensures |line| == |vs|
    ensures forall j :: 0 <= j < |vs| ==> line[j] == CountRangeField(rs, d, i, Some(vs[j])) <= CountRange(rs, i)
    decreases |vs|
  {
    if vs == [] then []
    else
      CountRangeFieldBound(rs, d, i, Some(vs[0]));
      [CountRangeField(rs, d, i, Some(vs[0]))] + BreakdownLine(rs, d, i, vs[1..])
  }

  /** Rows of range `i` with a given value of `d` are some of the rows of range `i`. */
  lemma {:induction false} CountRangeFieldBound(rs: seq<Employee>, d: Dimension, i: nat, v: Option<string>)
    ensures CountRangeField(rs, d, i, v) <= CountRange(rs, i)
    decreases |rs|
  {
    if rs != [] {
      CountRangeFieldBound(rs[1..], d, i, v);
    }
  }

  /** `groupby(['ExperienceRange', d]).size()`: a count for every range and every value `d`
      holds, zero counts included; rows without a value of `d` drop out. */
  function Breakdown(rs: seq<Employee>, d: Dimension): (table: seq<seq<nat>>)
    ensures |table| == 6
    ensures forall i :: 0 <= i < 6 ==> |table[i]| == |Values(rs, d)|
    ensures forall i, j :: 0 <= i < 6 && 0 <= j < |table[i]| ==>
      table[i][j] == CountRangeField(rs, d, i, Some(Values(rs, d)[j])) <= RangeCounts(rs)[i]
  {
    seq(6, i requires 0 <= i < 6 => BreakdownLine(rs, d, i, Values(rs, d)))
  }

  /** How often `v` occurs in `vs`. */
  function Hits(vs: seq<string>, v: string): nat {
    if vs == [] then 0 else (if vs[0] == v then 1 else 0) + Hits(vs[1..], v)
  }

  lemma {:induction false} HitsDistinct(vs: seq<string>, v: string)
    requires NoDuplicates(vs)
    ensures Hits(vs, v) == if v in vs then 1 else 0
    decreases |vs|
  {
    if vs != [] {
      HitsDistinct(vs[1..], v);
      assert NoDuplicates(vs[1..]) by {
        forall i, j | 0 <= i < j < |vs[1..]|
          ensures vs[1..][i] != vs[1..][j]
        {
          assert vs[1..][i] == vs[i + 1] && vs[1..][j] == vs[j + 1];
        }
      }
      if vs[0] == v {
        assert v !in vs[1..] by {
          forall j | 0 <= j < |vs[1..]|
            ensures vs[1..][j] != v
          {
            assert vs[1..][j] == vs[j + 1];
          }
        }
      }
      assert v in vs <==> v == vs[0] || v in vs[1..];
    }
  }

  /** Adding the first row to the rest adds one to the line at that row's value, wherever it
      occurs in `vs`. */
  lemma {:induction false} BreakdownLineStep(rs: seq<Employee>, d: Dimension, i: nat, vs: seq<string>)
    requires rs != []
    ensures SumNat(BreakdownLine(rs, d, i, vs)) == SumNat(BreakdownLine(rs[1..], d, i, vs))
      + if Bucket(rs[0].experienceYears) == Some(i) && Field(rs[0], d).Some? then Hits(vs, Field(rs[0], d).value) else 0
    decreases |vs|
  {
    if vs != [] {
      BreakdownLineStep(rs, d, i, vs[1..]);
    }
  }

  lemma {:induction false} BreakdownLineEmpty(d: Dimension, i: nat, vs: seq<string>)
    ensures SumNat(BreakdownLine([], d, i, vs)) == 0
    decreases |vs|
  {
    if vs != [] {
      BreakdownLineEmpty(d, i, vs[1..]);
    }
  }

  /** When `vs` lists every present value of `d` once, the line of range `i` adds up to the rows
      of that range with a value of `d`. */
  lemma {:induction false} BreakdownLineTotal(rs: seq<Employee>, d: Dimension, i: nat, vs: seq<string>)
    requires NoDuplicates(vs)
    requires forall k :: 0 <= k < |rs| && Field(rs[k], d).Some? ==> Field(rs[k], d).value in vs
    ensures SumNat(BreakdownLine(rs, d, i, vs)) == CountRangePresent(rs, d, i)
    decreases |rs|
  {
    if rs == [] {
      BreakdownLineEmpty(d, i, vs);
    } else {
      assert forall k :: 1 <= k < |rs| ==> rs[1..][k - 1] == rs[k];
      BreakdownLineTotal(rs[1..], d, i, vs);
      BreakdownLineStep(rs, d, i, vs);
      if Field(rs[0], d).Some? {
        HitsDistinct(vs, Field(rs[0], d).value);
      }
    }
  }

  /** Each range's line of the broken-down chart adds up to that range's count less the rows
      without a value of the chosen column. */
  lemma BreakdownTotal(rs: seq<Employee>, d: Dimension, i: nat)
    requires i < 6
    ensures SumNat(Breakdown(rs, d)[i]) == CountRangePresent(rs, d, i)
    ensures SumNat(Breakdown(rs, d)[i]) + CountRangeField(rs, d, i, None) == RangeCounts(rs)[i]
  {
    BreakdownLineTotal(rs, d, i, Values(rs, d));
    RangeSplitsByPresence(rs, d, i);
  }

  // ---------------------------------------------------------------------------------------------
  // The page

  /** The breakdown radio button. */
  datatype Grouping = NoGrouping | GroupBy(dimension: Dimension)

  /** The experience chart: one count per range, or a count per range and value. */
  datatype Chart = Counts(counts: seq<nat>) | Broken(values: seq<string>, table: seq<seq<nat>>)

  /** What the page shows. */
  datatype View = View(working: seq<Employee>, headline: Option<real>, locationMeans: map<string, Option<real>>,
                       exported: seq<Employee>, ranges: seq<Option<nat>>, chart: Chart)

  /** The working set after both filters holds every copy of a row that passes both, and no other row. */
  lemma WorkingSelects(table: seq<Employee>, includeInactive: bool, selectedRole: string, e: Employee)
    ensures var df := FilterRole(Load(table, includeInactive), selectedRole);
      e in df <==>
        (e in table && (includeInactive || Keeps(ActiveStatus, e)) && (selectedRole == "All" || e.role == Some(selectedRole)))
    ensures multiset(FilterRole(Load(table, includeInactive), selectedRole))[e] ==
      (if (includeInactive || Keeps(ActiveStatus, e)) && (selectedRole == "All" || e.role == Some(selectedRole))
       then multiset(table)[e] else 0)
  {
    var loaded := Load(table, includeInactive);
    LoadSelects(table, includeInactive, e);
    FilterRoleSelects(loaded, selectedRole, e);
    if e in table {
      assert multiset(table)[e] > 0;
    }
  }

  /** The experience chart's counts add up: to the rows with a range, or per range to the rows
      with a value of the breakdown column. */
  lemma ChartTotals(df: seq<Employee>, grouping: Grouping)
    ensures grouping.NoGrouping? ==> SumNat(RangeCounts(df)) == CountRanged(df)
    ensures grouping.GroupBy? ==> forall i :: 0 <= i < 6 ==>
      SumNat(Breakdown(df, grouping.dimension)[i]) == CountRangePresent(df, grouping.dimension, i)
  {
    match grouping {
      case NoGrouping =>
        RangeCountsTotal(df);
      case GroupBy(d) =>
        forall i | 0 <= i < 6
          ensures SumNat(Breakdown(df, d)[i]) == CountRangePresent(df, d, i)
        {
          BreakdownTotal(df, d, i);
        }
    }
  }

  /** Every bar of the per-location chart is the headline figure of its Location. */
  lemma MeansAreHeadlines(df: seq<Employee>)
    ensures forall l :: l in LocationMeans(df) ==> LocationMeans(df)[l] == HeadlineMean(df, Some(l))
  {
    forall l | l in LocationMeans(df)
      ensures LocationMeans(df)[l] == HeadlineMean(df, Some(l))
    {
      LocationMeansHeadline(df, l);
    }
  }

  /** A headline figure needs a row at the chosen Location. */
  lemma HeadlineHasRow(df: seq<Employee>, location: Option<string>)
    ensures HeadlineMean(df, location).Some? ==> exists k :: 0 <= k < |df| && df[k].location == location
  {
    if HeadlineMean(df, location).Some? {
      HeadlineMissing(df, location);
      var e :| e in df && Keeps(LocationIs(location), e) && e.compensation.Some?;
    }
  }

  /** The page from top to bottom, the working set rebound by each filter in turn. */
  method RunDashboard(table: seq<Employee>, includeInactive: bool, selectedRole: string,
                      selectedLocation: Option<string>, exportRoles: seq<Option<string>>,
                      exportLocations: seq<Option<string>>, grouping: Grouping) returns (view: View)
    ensures view.working == FilterRole(Load(table, includeInactive), selectedRole)
    ensures view.headline == HeadlineMean(view.working, selectedLocation)
    ensures view.locationMeans == LocationMeans(view.working)
    ensures view.exported == Export(view.working, exportRoles, exportLocations)
    ensures view.ranges == Ranges(view.working)
    ensures grouping.NoGrouping? ==> view.chart == Counts(RangeCounts(view.working))
    ensures grouping.GroupBy? ==>
      view.chart == Broken(Values(view.working, grouping.dimension), Breakdown(view.working, grouping.dimension))
    ensures IsSubsequence(view.working, table)
    ensures forall e :: e in view.working <==>
      (e in table && (includeInactive || Keeps(ActiveStatus, e)) && (selectedRole == "All" || e.role == Some(selectedRole)))
    ensures forall e ::
      multiset(view.working)[e] ==
        (if (includeInactive || Keeps(ActiveStatus, e)) && (selectedRole == "All" || e.role == Some(selectedRole))
         then multiset(table)[e] else 0)
    ensures view.headline.Some? ==> exists k :: 0 <= k < |view.working| && view.working[k].location == selectedLocation
    ensures forall l :: l in view.locationMeans ==> view.locationMeans[l] == HeadlineMean(view.working, Some(l))
    ensures IsSubsequence(view.exported, view.working)
    ensures grouping.NoGrouping? ==> SumNat(view.chart.counts) == CountRanged(view.working)
    ensures grouping.GroupBy? ==> forall i :: 0 <= i < 6 ==>
      SumNat(view.chart.table[i]) == CountRangePresent(view.working, grouping.dimension, i)
  {
    var loaded := Load(table, includeInactive);
    var df := FilterRole(loaded, selectedRole);
    var headline := HeadlineMean(df, selectedLocation);
    var means := LocationMeans(df);
    var exported := Export(df, exportRoles, exportLocations);
    var ranges := Ranges(df);
    var chart := match grouping
      case NoGrouping => Counts(RangeCounts(df))
      case GroupBy(d) => Broken(Values(df, d), Breakdown(df, d));
    view := View(df, headline, means, exported, ranges, chart);
    forall e
      ensures e in df <==>
        (e in table && (includeInactive || Keeps(ActiveStatus, e)) && (selectedRole == "All" || e.role == Some(selectedRole)))
      ensures multiset(df)[e] ==
        (if (includeInactive || Keeps(ActiveStatus, e)) && (selectedRole == "All" || e.role == Some(selectedRole))
         then multiset(table)[e] else 0)
    {
      WorkingSelects(table, includeInactive, selectedRole, e);
    }
    var none := Employee(None, None, None, None, None, None);
    LoadSelects(table, includeInactive, none);
    FilterRoleSelects(loaded, selectedRole, none);
    SubsequenceTransitive(df, loaded, table);
    HeadlineHasRow(df, selectedLocation);
    MeansAreHeadlines(df);
    ExportSelects(df, exportRoles, exportLocations, none);
    ChartTotals(df, grouping);
  }
}
