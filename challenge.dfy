/** The transformation layer of the data-dump loader: `formatDate`, the
    organization and customer records, the projection of a parsed CSV row onto
    each record, and the two loops that turn the parsed rows into the arrays
    handed to the database. */
module Challenge {
  import opened Wrappers
  import opened EcmaScript

  /** One parsed CSV line: header name to field text. */
  type Row = map<string, string>

  /** `row[name]`: the field, or `None` (`undefined`) when the row has no such
      column. */
  function Column(row: Row, name: string): Option<string>
  {
    if name in row then Some(row[name]) else None
  }

  // ---------------------------------------------------------------------
  // formatDate
  // ---------------------------------------------------------------------

  /** The `i`-th element of an array after destructuring, rendered by a
      template literal: missing elements are `undefined`. */
  function DatePart(parts: seq<string>, i: nat): string
  {
    if i < |parts| then parts[i] else UndefinedText
  }

  /** `formatDate(dateString)`: split on `-`, name the first three parts day,
      month and year, and write them back as year-month-day. Nothing is
      validated; the result always has exactly two hyphens. */
  function FormatDate(dateString: string): string
  {
    var parts := Split(dateString, '-');
    DatePart(parts, 2) + "-" + DatePart(parts, 1) + "-" + DatePart(parts, 0)
  }

  /** `formatDate` never fails, and its result always has exactly two
      hyphens. */
  lemma FormatDateHyphens(s: string)
    ensures multiset(FormatDate(s))['-'] == 2
  {
    var parts := Split(s, '-');
    HyphenCount(DatePart(parts, 2), DatePart(parts, 1), DatePart(parts, 0));
  }

  /** Hyphens in three hyphen-free fields joined by hyphens. */
  lemma HyphenCount(a: string, b: string, c: string)
    requires '-' !in a && '-' !in b && '-' !in c
    ensures multiset(a + "-" + b + "-" + c)['-'] == 2
  {
    assert multiset(a + "-" + b + "-" + c)
        == multiset(a) + multiset{'-'} + multiset(b) + multiset{'-'} + multiset(c);
    assert multiset(a)['-'] == 0 && multiset(b)['-'] == 0 && multiset(c)['-'] == 0;
  }

  /** Three hyphen-joined fields, grouped to the right. */
  lemma Regroup(a: string, b: string, c: string)
    ensures a + "-" + b + "-" + c == a + ['-'] + (b + ['-'] + c)
  {
  }

  /** Three hyphen-free fields joined by hyphens split back into those
      fields. */
  lemma SplitDayMonthYear(day: string, month: string, year: string)
    requires '-' !in day && '-' !in month && '-' !in year
    ensures Split(day + "-" + month + "-" + year, '-') == [day, month, year]
  {
    SplitWithoutSeparator(year, '-');
    SplitAfterField(month, '-', year);
    SplitAfterField(day, '-', month + ['-'] + year);
    Regroup(day, month, year);
  }

  /** Four hyphen-joined fields, grouped to the right. */
  lemma Regroup4(a: string, b: string, c: string, d: string)
    ensures a + "-" + b + "-" + c + "-" + d == a + ['-'] + (b + ['-'] + (c + ['-'] + d))
  {
  }

  /** The same, when a hyphen and further text follow the third field. */
  lemma SplitDayMonthYearTail(day: string, month: string, year: string, tail: string)
    requires '-' !in day && '-' !in month && '-' !in year
    ensures Split(day + "-" + month + "-" + year + "-" + tail, '-')
         == [day, month, year] + Split(tail, '-')
  {
    SplitAfterField(year, '-', tail);
    SplitAfterField(month, '-', year + ['-'] + tail);
    SplitAfterField(day, '-', month + ['-'] + (year + ['-'] + tail));
    Regroup4(day, month, year, tail);
  }

  /** A `DD-MM-YYYY`-shaped string with exactly three fields is rewritten as
      `YYYY-MM-DD`: the fields are swapped end for end. */
  lemma FormatDateReorders(day: string, month: string, year: string)
    requires '-' !in day && '-' !in month && '-' !in year
    ensures FormatDate(day + "-" + month + "-" + year) == year + "-" + month + "-" + day
  {
    SplitDayMonthYear(day, month, year);
  }

  /** Fields after the third are dropped. */
  lemma FormatDateIgnoresExtraFields(day: string, month: string, year: string, tail: string)
    requires '-' !in day && '-' !in month && '-' !in year
    ensures FormatDate(day + "-" + month + "-" + year + "-" + tail) == year + "-" + month + "-" + day
  {
    SplitDayMonthYearTail(day, month, year, tail);
  }

  /** With a single field, month and year print as `undefined`. */
  lemma FormatDateOneField(day: string)
    requires '-' !in day
    ensures FormatDate(day) == "undefined-undefined-" + day
  {
    var parts := Split(day, '-');
    SplitWithoutSeparator(day, '-');
    assert parts == [day];
    assert FormatDate(day) == UndefinedText + "-" + UndefinedText + "-" + day;
    assert UndefinedText + "-" + UndefinedText + "-" == "undefined-undefined-";
  }

  /** With two fields, the year prints as `undefined`. */
  lemma FormatDateTwoFields(day: string, month: string)
    requires '-' !in day && '-' !in month
    ensures FormatDate(day + "-" + month) == "undefined-" + month + "-" + day
  {
    var parts := Split(day + "-" + month, '-');
    SplitWithoutSeparator(month, '-');
    SplitAfterField(day, '-', month);
    assert DatePart(parts, 2) == UndefinedText;
    assert DatePart(parts, 1) == month && DatePart(parts, 0) == day;
  }

  /** `Join` of three parts, unfolded. */
  lemma JoinThree(parts: seq<string>)
    requires |parts| == 3
    ensures Join(parts, '-') == parts[0] + "-" + parts[1] + "-" + parts[2]
  {
    assert Join(parts[1..], '-') == parts[1] + "-" + parts[2] by {
      assert parts[1..][1..] == parts[2..];
    }
  }

  /** `Join` of more than three parts, unfolded. */
  lemma JoinMoreThanThree(parts: seq<string>)
    requires |parts| > 3
    ensures Join(parts, '-') == parts[0] + "-" + parts[1] + "-" + parts[2] + "-" + Join(parts[3..], '-')
  {
    assert parts[1..][1..] == parts[2..] && parts[2..][1..] == parts[3..];
    assert Join(parts[2..], '-') == parts[2] + "-" + Join(parts[3..], '-');
    assert Join(parts[1..], '-') == parts[1] + "-" + Join(parts[2..], '-');
  }

  /** On strings with exactly two hyphens `formatDate` is its own inverse. */
  lemma FormatDateInvolution(s: string)
    requires multiset(s)['-'] == 2
    ensures FormatDate(FormatDate(s)) == s
  {
    var parts := Split(s, '-');
    SplitCount(s, '-');
    JoinSplit(s, '-');
    JoinThree(parts);
    FormatDateReorders(parts[2], parts[1], parts[0]);
  }

  /** Every output of `formatDate` has exactly two hyphens, so applying it a
      third time gives the first result again. */
  lemma FormatDateThrice(s: string)
    ensures FormatDate(FormatDate(FormatDate(s))) == FormatDate(s)
  {
    FormatDateHyphens(s);
    FormatDateInvolution(FormatDate(s));
  }

  /** An example: `05-03-2020` becomes `2020-03-05`. */
  lemma FormatDateExample()
    ensures FormatDate("05-03-2020") == "2020-03-05"
  {
    FormatDateReorders("05", "03", "2020");
    assert "05" + "-" + "03" + "-" + "2020" == "05-03-2020";
    assert "2020" + "-" + "03" + "-" + "05" == "2020-03-05";
  }

  // ---------------------------------------------------------------------
  // formatDate and the ISO 8601 calendar-date layout
  // ---------------------------------------------------------------------

  /** `n` decimal digits. */
  predicate IsDigits(x: string, n: nat)
  {
    |x| == n && AllDigits(x, 10)
  }

  /** The layout of an ISO 8601 extended-format calendar date, `YYYY-MM-DD`
      (section 4.1.2.2 of ISO 8601:2004): digits, with hyphens at positions 4
      and 7. Component ranges are not part of the layout. */
  predicate IsIsoDateLayout(t: string)
  {
    |t| == 10 && t[4] == '-' && t[7] == '-'
    && forall i :: 0 <= i < 10 && i != 4 && i != 7 ==> IsDigit(t[i], 10)
  }

  /** The text starts with a `DD-MM-YYYY` layout that ends there or at a
      further hyphen. */
  predicate StartsWithDayMonthYear(s: string)
  {
    |s| >= 10 && s[2] == '-' && s[5] == '-'
    && (forall i :: 0 <= i < 10 && i != 2 && i != 5 ==> IsDigit(s[i], 10))
    && (|s| == 10 || s[10] == '-')
  }

  /** In a text whose first hyphen sits at position `k`, a hyphen-free leading
      field is exactly `k` long. */
  lemma FieldEndsAtHyphen(field: string, rest: string, k: nat)
    requires '-' !in field
    requires k < |field + "-" + rest| && (field + "-" + rest)[k] == '-'
    requires forall i :: 0 <= i < k ==> (field + "-" + rest)[i] != '-'
    ensures |field| == k
  {
    var t := field + "-" + rest;
    assert t[|field|] == '-';
    assert forall i :: 0 <= i < |field| ==> t[i] == field[i];
  }

  /** Three hyphen-free fields joined by hyphens have the ISO layout exactly
      when they are four, two and two digits long. */
  lemma IsoLayoutOfFields(a: string, b: string, c: string)
    requires '-' !in a && '-' !in b && '-' !in c
    ensures IsIsoDateLayout(a + "-" + b + "-" + c) <==> IsDigits(a, 4) && IsDigits(b, 2) && IsDigits(c, 2)
  {
    var t := a + "-" + b + "-" + c;
    assert forall i :: 0 <= i < |a| ==> t[i] == a[i];
    assert forall i :: 0 <= i < |b| ==> t[|a| + 1 + i] == b[i];
    assert forall i :: 0 <= i < |c| ==> t[|a| + |b| + 2 + i] == c[i];
    if IsIsoDateLayout(t) {
      Regroup(a, b, c);
      FieldEndsAtHyphen(a, b + "-" + c, 4);
      assert t[5..] == b + "-" + c;
      FieldEndsAtHyphen(b, c, 2);
    }
  }

  /** The `DD-MM-YYYY` prefix layout, read through `split`: the first three
      fields are two, two and four digits long. */
  lemma DayMonthYearFields(s: string)
    ensures var parts := Split(s, '-');
            StartsWithDayMonthYear(s)
            <==> |parts| >= 3 && IsDigits(parts[0], 2) && IsDigits(parts[1], 2) && IsDigits(parts[2], 4)
  {
    var parts := Split(s, '-');
    if StartsWithDayMonthYear(s) {
      var day, month, year := s[..2], s[3..5], s[6..10];
      assert forall i :: 0 <= i < 2 ==> day[i] == s[i];
      assert forall i :: 0 <= i < 2 ==> month[i] == s[3 + i];
      assert forall i :: 0 <= i < 4 ==> year[i] == s[6 + i];
      if |s| == 10 {
        assert s == day + "-" + month + "-" + year;
        SplitDayMonthYear(day, month, year);
      } else {
        assert s == day + "-" + month + "-" + year + "-" + s[11..];
        SplitDayMonthYearTail(day, month, year, s[11..]);
      }
    }
    if |parts| >= 3 && IsDigits(parts[0], 2) && IsDigits(parts[1], 2) && IsDigits(parts[2], 4) {
      JoinSplit(s, '-');
      var head := parts[0] + "-" + parts[1] + "-" + parts[2];
      if |parts| == 3 {
        JoinThree(parts);
        assert s == head;
      } else {
        JoinMoreThanThree(parts);
        assert s == head + "-" + Join(parts[3..], '-');
      }
      assert forall i :: 0 <= i < 2 ==> s[i] == parts[0][i];
      assert forall i :: 0 <= i < 2 ==> s[3 + i] == parts[1][i];
      assert forall i :: 0 <= i < 4 ==> s[6 + i] == parts[2][i];
    }
  }

  /** `formatDate` produces the ISO layout exactly when its input starts with
      the `DD-MM-YYYY` layout. */
  lemma FormatDateIsoLayout(s: string)
    ensures IsIsoDateLayout(FormatDate(s)) <==> StartsWithDayMonthYear(s)
  {
    var parts := Split(s, '-');
    IsoLayoutOfFields(DatePart(parts, 2), DatePart(parts, 1), DatePart(parts, 0));
    DayMonthYearFields(s);
    assert !IsDigits(UndefinedText, 4) && !IsDigits(UndefinedText, 2);
  }

  // ---------------------------------------------------------------------
  // Organization rows
  // ---------------------------------------------------------------------

  /** An organization record as pushed onto `organizations`. A text field is
      `None` when the row lacks its column (`undefined`); a numeric field is
      `None` when `parseInt` gives `NaN`. */
  datatype Organization = Organization(
    OrganizationId: Option<string>,
    Name: Option<string>,
    Website: Option<string>,
    Country: Option<string>,
    Description: Option<string>,
    Founded: Option<int>,
    Industry: Option<string>,
    NumberOfEmployees: Option<int>)

  /** The columns an organization record is built from. */
  const OrganizationColumns: set<string> :=
    {"Organization Id", "Name", "Website", "Country", "Description", "Founded", "Industry", "Number of employees"}

  /** The columns an organization record copies verbatim. */
  const OrganizationTextColumns: set<string> :=
    {"Organization Id", "Name", "Website", "Country", "Description", "Industry"}

  /** The object literal pushed for one organization row. */
  function OrganizationOf(row: Row): Organization
  {
    Organization(
      OrganizationId := Column(row, "Organization Id"),
      Name := Column(row, "Name"),
      Website := Column(row, "Website"),
      Country := Column(row, "Country"),
      Description := Column(row, "Description"),
      Founded := ParseIntOf(Column(row, "Founded")),
      Industry := Column(row, "Industry"),
      NumberOfEmployees := ParseIntOf(Column(row, "Number of employees")))
  }

  // ---------------------------------------------------------------------
  // Customer rows
  // ---------------------------------------------------------------------

  /** A customer record as pushed onto `customers`. A text field is `None`
      when the row lacks its column; `Subscription` is always a string,
      because a row without a subscription date never yields a record. */
  datatype Customer = Customer(
    CustomerId: Option<string>,
    FirstName: Option<string>,
    LastName: Option<string>,
    Company: Option<string>,
    City: Option<string>,
    Country: Option<string>,
    Phone1: Option<string>,
    Phone2: Option<string>,
    Email: Option<string>,
    Subscription: string,
    Website: Option<string>)

  /** The column `formatDate` is applied to. */
  const SubscriptionDate: string := "Subscription Date"

  /** The columns a customer record is built from. */
  const CustomerColumns: set<string> :=
    {"Customer Id", "First Name", "Last Name", "Company", "City", "Country",
     "Phone 1", "Phone 2", "Email", "Subscription Date", "Website"}

  /** The columns a customer record copies verbatim. */
  const CustomerTextColumns: set<string> := CustomerColumns - {SubscriptionDate}

  /** The object literal pushed for one customer row, or `None` when building
      it throws: `formatDate(undefined)` reads `split` of `undefined`, a
      `TypeError`. */
  function CustomerOf(row: Row): Option<Customer>
  {
    match Column(row, SubscriptionDate)
    case None => None
    case Some(date) =>
      Some(Customer(
        CustomerId := Column(row, "Customer Id"),
        FirstName := Column(row, "First Name"),
        LastName := Column(row, "Last Name"),
        Company := Column(row, "Company"),
        City := Column(row, "City"),
        Country := Column(row, "Country"),
        Phone1 := Column(row, "Phone 1"),
        Phone2 := Column(row, "Phone 2"),
        Email := Column(row, "Email"),
        Subscription := FormatDate(date),
        Website := Column(row, "Website")))
  }

  // ---------------------------------------------------------------------
  // Properties of the projections
  // ---------------------------------------------------------------------

  /** The part of a row under the given columns. */
  function Restrict(row: Row, columns: set<string>): Row
  {
    map c | c in columns && c in row :: row[c]
  }

  /** A column entry for a field that may be `undefined`. */
  function Entry(column: string, v: Option<string>): Row
  {
    if v.Some? then map[column := v.value] else map[]
  }

  /** The verbatim fields of an organization record, back under their source
      column names. */
  function OrganizationTextFields(o: Organization): Row
  {
    Entry("Organization Id", o.OrganizationId) + Entry("Name", o.Name)
    + Entry("Website", o.Website) + Entry("Country", o.Country)
    + Entry("Description", o.Description) + Entry("Industry", o.Industry)
  }

  /** The verbatim fields of a customer record, back under their source column
      names. */
  function CustomerTextFields(c: Customer): Row
  {
    Entry("Customer Id", c.CustomerId) + Entry("First Name", c.FirstName)
    + Entry("Last Name", c.LastName) + Entry("Company", c.Company)
    + Entry("City", c.City) + Entry("Country", c.Country)
    + Entry("Phone 1", c.Phone1) + Entry("Phone 2", c.Phone2)
    + Entry("Email", c.Email) + Entry("Website", c.Website)
  }

  /** Two rows that agree on the given columns, missing ones included. */
  predicate AgreeOn(r1: Row, r2: Row, columns: set<string>)
  {
    forall c :: c in columns ==> Column(r1, c) == Column(r2, c)
  }

  /** The six text fields of an organization are its row's six columns,
      unchanged: mapping the record back gives exactly that part of the row. */
  lemma OrganizationTextRoundTrip(row: Row)
    ensures OrganizationTextFields(OrganizationOf(row)) == Restrict(row, OrganizationTextColumns)
  {
    var s1: set<string> := {"Organization Id"};
    var s2 := s1 + {"Name"};
    var s3 := s2 + {"Website"};
    var s4 := s3 + {"Country"};
    var s5 := s4 + {"Description"};
    var s6 := s5 + {"Industry"};
    var e1 := Entry("Organization Id", Column(row, "Organization Id"));
    var e2 := e1 + Entry("Name", Column(row, "Name"));
    var e3 := e2 + Entry("Website", Column(row, "Website"));
    var e4 := e3 + Entry("Country", Column(row, "Country"));
    var e5 := e4 + Entry("Description", Column(row, "Description"));
    var e6 := e5 + Entry("Industry", Column(row, "Industry"));
    RestrictOne(row, "Organization Id");
    RestrictOneMore(row, s1, "Name");
    assert Restrict(row, s2) == e2;
    RestrictOneMore(row, s2, "Website");
    assert Restrict(row, s3) == e3;
    RestrictOneMore(row, s3, "Country");
    assert Restrict(row, s4) == e4;
    RestrictOneMore(row, s4, "Description");
    assert Restrict(row, s5) == e5;
    RestrictOneMore(row, s5, "Industry");
    assert Restrict(row, s6) == e6;
    assert s6 == OrganizationTextColumns;
    assert OrganizationTextFields(OrganizationOf(row)) == e6;
  }

  /** Restricting to one column leaves that column's entry. */
  lemma RestrictOne(row: Row, c: string)
    ensures Restrict(row, {c}) == Entry(c, Column(row, c))
  {
  }

  /** Restricting to one more column adds that column's entry. */
  lemma RestrictOneMore(row: Row, columns: set<string>, c: string)
    ensures Restrict(row, columns + {c}) == Restrict(row, columns) + Entry(c, Column(row, c))
  {
  }

  /** `Founded` and `NumberOfEmployees` are `parseInt` of their columns: a
      string of decimal digits gives its value, and a missing column or a
      field without leading digits gives `NaN` while the record is still
      built. */
  lemma OrganizationNumbers(row: Row)
    ensures var o := OrganizationOf(row);
            && ("Founded" in row && IsDigitsOnly(row["Founded"])
                ==> o.Founded == Some(NumberValue(row["Founded"], 10)))
            && ("Founded" !in row || NoLeadingDigit(row["Founded"]) ==> o.Founded == None)
            && ("Number of employees" in row && IsDigitsOnly(row["Number of employees"])
                ==> o.NumberOfEmployees == Some(NumberValue(row["Number of employees"], 10)))
            && ("Number of employees" !in row || NoLeadingDigit(row["Number of employees"])
                ==> o.NumberOfEmployees == None)
  {
    NumberColumn(row, "Founded");
    NumberColumn(row, "Number of employees");
  }

  /** A non-empty string of decimal digits only. */
  predicate IsDigitsOnly(s: string)
  {
    |s| >= 1 && AllDigits(s, 10)
  }

  /** After white space and an optional sign, no decimal digit follows. */
  predicate NoLeadingDigit(s: string)
  {
    var u := AfterSign(TrimStart(s));
    u == [] || !IsDigit(u[0], 10)
  }

  /** `parseInt(row[column])` on the two shapes `OrganizationNumbers` names. */
  lemma NumberColumn(row: Row, column: string)
    ensures column in row && IsDigitsOnly(row[column])
            ==> ParseIntOf(Column(row, column)) == Some(NumberValue(row[column], 10))
    ensures column !in row || NoLeadingDigit(row[column]) ==> ParseIntOf(Column(row, column)) == None
  {
    if column in row {
      if IsDigitsOnly(row[column]) {
        ParseIntOfDigits(row[column], false);
      }
      if NoLeadingDigit(row[column]) {
        ParseIntNaN(row[column]);
      }
    } else {
      ParseIntOfUndefined();
    }
  }

  /** An organization record depends on its eight columns and nothing else. */
  lemma OrganizationReadsOnlyItsColumns(r1: Row, r2: Row)
    requires AgreeOn(r1, r2, OrganizationColumns)
    ensures OrganizationOf(r1) == OrganizationOf(r2)
  {
  }

  /** Building a customer record throws exactly when the row has no
      subscription date; otherwise its ten text fields are the row's ten
      columns unchanged and `Subscription` is the reformatted date. */
  lemma CustomerProjection(row: Row)
    ensures CustomerOf(row).None? <==> SubscriptionDate !in row
    ensures CustomerOf(row).Some? ==>
              && CustomerTextFields(CustomerOf(row).value) == Restrict(row, CustomerTextColumns)
              && CustomerOf(row).value.Subscription == FormatDate(row[SubscriptionDate])
  {
    if SubscriptionDate in row {
      var s1: set<string> := {"Customer Id"};
      var s2 := s1 + {"First Name"};
      var s3 := s2 + {"Last Name"};
      var s4 := s3 + {"Company"};
      var s5 := s4 + {"City"};
      var s6 := s5 + {"Country"};
      var s7 := s6 + {"Phone 1"};
      var s8 := s7 + {"Phone 2"};
      var s9 := s8 + {"Email"};
      var s10 := s9 + {"Website"};
      var e1 := Entry("Customer Id", Column(row, "Customer Id"));
      var e2 := e1 + Entry("First Name", Column(row, "First Name"));
      var e3 := e2 + Entry("Last Name", Column(row, "Last Name"));
      var e4 := e3 + Entry("Company", Column(row, "Company"));
      var e5 := e4 + Entry("City", Column(row, "City"));
      var e6 := e5 + Entry("Country", Column(row, "Country"));
      var e7 := e6 + Entry("Phone 1", Column(row, "Phone 1"));
      var e8 := e7 + Entry("Phone 2", Column(row, "Phone 2"));
      var e9 := e8 + Entry("Email", Column(row, "Email"));
      var e10 := e9 + Entry("Website", Column(row, "Website"));
      RestrictOne(row, "Customer Id");
      RestrictOneMore(row, s1, "First Name");
      assert Restrict(row, s2) == e2;
      RestrictOneMore(row, s2, "Last Name");
      assert Restrict(row, s3) == e3;
      RestrictOneMore(row, s3, "Company");
      assert Restrict(row, s4) == e4;
      RestrictOneMore(row, s4, "City");
      assert Restrict(row, s5) == e5;
      RestrictOneMore(row, s5, "Country");
      assert Restrict(row, s6) == e6;
      RestrictOneMore(row, s6, "Phone 1");
      assert Restrict(row, s7) == e7;
      RestrictOneMore(row, s7, "Phone 2");
      assert Restrict(row, s8) == e8;
      RestrictOneMore(row, s8, "Email");
      assert Restrict(row, s9) == e9;
      RestrictOneMore(row, s9, "Website");
      assert Restrict(row, s10) == e10;
      assert s10 == CustomerTextColumns;
      assert CustomerTextFields(CustomerOf(row).value) == e10;
    }
  }

  /** A `DD-MM-YYYY` subscription date is stored as `YYYY-MM-DD`. */
  lemma CustomerSubscription(row: Row, day: string, month: string, year: string)
    requires '-' !in day && '-' !in month && '-' !in year
    requires SubscriptionDate in row && row[SubscriptionDate] == day + "-" + month + "-" + year
    ensures CustomerOf(row) != None
    ensures CustomerOf(row).value.Subscription == year + "-" + month + "-" + day
  {
    FormatDateReorders(day, month, year);
  }

  /** A customer record depends on its eleven columns and nothing else. */
  lemma CustomerReadsOnlyItsColumns(r1: Row, r2: Row)
    requires AgreeOn(r1, r2, CustomerColumns)
    ensures CustomerOf(r1) == CustomerOf(r2)
  {
  }

  // ---------------------------------------------------------------------
  // The accumulation loops
  // ---------------------------------------------------------------------

  /** The `for await` loop over the organization rows: one record is pushed
      per row, in row order; no row is skipped and nothing throws. */
  method LoadOrganizations(rows: seq<Row>) returns (organizations: seq<Organization>)
    ensures |organizations| == |rows|
    ensures forall i :: 0 <= i < |rows| ==> organizations[i] == OrganizationOf(rows[i])
  {
    organizations := [];
    var i := 0;
    while i < |rows|
      invariant 0 <= i <= |rows|
      invariant |organizations| == i
      invariant forall k :: 0 <= k < i ==> organizations[k] == OrganizationOf(rows[k])
    {
      organizations := organizations + [OrganizationOf(rows[i])];
      i := i + 1;
    }
  }

  /** Why the customer loop stopped: building the record for row `index`
      threw a `TypeError` (its subscription date was `undefined`). */
  datatype LoadError = TypeErrorAtRow(index: nat)

  /** The `for await` loop over the customer rows: one record is pushed per
      row, in row order. The first row without a subscription date throws,
      and the exception leaves the loop, so no array is produced. */
  method LoadCustomers(rows: seq<Row>) returns (result: Result<seq<Customer>, LoadError>)
    ensures result.Success? <==> forall i :: 0 <= i < |rows| ==> SubscriptionDate in rows[i]
    ensures result.Success? ==>
              && |result.value| == |rows|
              && forall i :: 0 <= i < |rows| ==> CustomerOf(rows[i]) == Some(result.value[i])
    ensures result.Failure? ==>
              && result.error.index < |rows|
              && SubscriptionDate !in rows[result.error.index]
              && forall i :: 0 <= i < result.error.index ==> SubscriptionDate in rows[i]
  {
    var customers: seq<Customer> := [];
    var i := 0;
    while i < |rows|
      invariant 0 <= i <= |rows|
      invariant |customers| == i
      invariant forall k :: 0 <= k < i ==> CustomerOf(rows[k]) == Some(customers[k])
    {
      var customer := CustomerOf(rows[i]);
      if customer.None? {
        return Failure(TypeErrorAtRow(i));
      }
      customers := customers + [customer.value];
      i := i + 1;
    }
    return Success(customers);
  }
}
