# Data-dump loader: the transformation layer

The loader downloads a compressed archive, unpacks two CSV files
(`organizations.csv` and `customers.csv`) and writes them into two SQLite
tables. Between parsing and inserting, each parsed row is turned into a
fixed-shape record. This Dafny project models that transformation layer of
`challenge.ts` and proves what it does:

- `formatDate`, which rewrites `DD-MM-YYYY` as `YYYY-MM-DD`. It splits on `-`,
  destructures the first three parts and writes them into a template
  literal. Missing parts print as `undefined`. Parts after the third are
  dropped.
- The organization projection. Six columns are copied unchanged.
  `Founded` and `Number of employees` go through `parseInt`.
- The customer projection. Ten columns are copied unchanged. `Subscription
  Date` goes through `formatDate`.
- The two `for await` loops. Each one pushes one record per row onto an
  array, in row order.

The three files are:

- `wrappers.dfy` (module `Wrappers`): `Option` and `Result`. `None` stands
  for JavaScript `undefined`, or for `NaN` where a number is expected.
- `ecmascript.dfy` (module `EcmaScript`): the built-ins the code relies on.
  These are `String.prototype.split` with a one-character separator,
  `ToString(undefined)`, and the global `parseInt` called without a radix, as
  section 19.2.5 of ECMA-262 defines it. The module also proves facts about
  them. `Join` is the inverse of `Split`, and `ParseInt` reads back what
  `DecimalText` (writing a number in decimal) writes.
- `challenge.dfy` (module `Challenge`): `FormatDate`, the `Organization`
  and `Customer` records, `OrganizationOf` and `CustomerOf` (the object
  literals built per row), and the loops `LoadOrganizations` and
  `LoadCustomers`.

A parsed CSV row is a `map<string, string>` from header to field. A row
without a given column yields `undefined` for it. That `undefined` is copied
into the record's text field, and `parseInt` turns it into `NaN`. For
`formatDate` it is different: `formatDate(undefined)` calls `split` on
`undefined`, which throws a `TypeError`. The exception leaves the customer
loop, so `LoadCustomers` returns a failure naming the first such row.

Two behaviours of the code are easy to miss:

- A customer row that lacks the `Subscription Date` column makes
  `formatDate` throw, which aborts the whole customer load
  (`LoadCustomers`); the organization loop never skips or throws.
- The numeric columns hold decimal years and counts, yet the code calls
  `parseInt` without a radix, so it also reads a `0x`/`0X` prefix as
  hexadecimal, and it ignores anything after the leading digits
  (`ParseIntHex`, `ParseIntDecimal`).

## Model

| member | source | states |
|---|---|---|
| EcmaScript.Split | challenge.ts:185 | `split("-")` always yields at least one part, and no part contains the separator |
| EcmaScript.JoinSplit | challenge.ts:185 | joining the parts of a split with the separator gives back the original string, so nothing is lost |
| EcmaScript.SplitJoin | challenge.ts:185 | splitting separator-free parts joined by the separator gives back exactly those parts, so the split is the unique such decomposition |
| EcmaScript.SplitCount | challenge.ts:185 | the number of parts is the number of separators plus one |
| EcmaScript.SplitAfterField | challenge.ts:185 | a leading separator-free field followed by a separator splits off as the first part |
| EcmaScript.SplitWithoutSeparator | challenge.ts:185 | a string without the separator splits into itself alone |
| EcmaScript.TrimStart | challenge.ts:111 | `parseInt` skips exactly a leading run of white space and line terminators: the rest is a suffix and does not start with white space |
| EcmaScript.TrimStartSkipsWhiteSpace | challenge.ts:111 | any amount of leading white space is removed, and nothing after it is |
| EcmaScript.LeadingDigits | challenge.ts:111 | the digits `parseInt` reads are the longest prefix made only of digits of the radix |
| EcmaScript.LeadingDigitsOfDigits | challenge.ts:111 | the digit run stops exactly at the first non-digit |
| EcmaScript.ParseInt | challenge.ts:111 | no ensures of its own; ParseIntSigned, ParseUnsignedDecimal, ParseUnsignedHex, ParseIntDecimal, ParseIntHex and ParseIntNaN fix its result for every input, and DecimalTextRoundTrip and NegativeDecimalTextRoundTrip show it reads back decimal numerals |
| EcmaScript.ParseIntSigned | challenge.ts:111 | after white space, a `-` negates the unsigned result, a `+` or no sign keeps it |
| EcmaScript.ParseUnsignedDecimal | challenge.ts:111 | decimal digits followed by a non-digit read as their decimal value |
| EcmaScript.ParseUnsignedHex | challenge.ts:111 | after `0x`/`0X` the digits are read in radix 16, and with no hexadecimal digit the result is NaN |
| EcmaScript.ParseIntDecimal | challenge.ts:111 | white space, an optional sign, decimal digits and trailing junk parse to the signed value of the digits |
| EcmaScript.ParseIntHex | challenge.ts:113 | white space, an optional sign and a `0x` prefix parse as signed hexadecimal, or as NaN when no hex digit follows |
| EcmaScript.ParseIntNaN | challenge.ts:111 | when no decimal digit follows the white space and the sign, `parseInt` gives NaN |
| EcmaScript.ToText | challenge.ts:111 | no ensures of its own; `ToString` of a column value, with `undefined` written as the text `undefined`, as ParseIntOfUndefined uses |
| EcmaScript.ParseIntOf | challenge.ts:111 | no ensures of its own; ParseIntOfUndefined (a missing column gives NaN) and NumberColumn fix its result on column values |
| EcmaScript.ParseIntOfUndefined | challenge.ts:113 | `parseInt(undefined)` (a missing column) gives NaN |
| EcmaScript.ParseIntOfDigits | challenge.ts:111 | a pure decimal-digit string, with or without a leading minus, parses to its signed value |
| EcmaScript.DecimalTextRoundTrip | challenge.ts:111 | `parseInt` reads back any natural number written in decimal |
| EcmaScript.NegativeDecimalTextRoundTrip | challenge.ts:111 | `parseInt` reads back a negative number written as a minus sign and its decimal numeral |
| Challenge.Column | challenge.ts:106-113 | no ensures of its own; `row[name]` is the field or `undefined`, and OrganizationTextRoundTrip and CustomerProjection show the record fields are exactly these columns |
| Challenge.DatePart | challenge.ts:185-186 | no ensures of its own; the destructured element or `undefined` in the template literal, as FormatDateOneField and FormatDateTwoFields show |
| Challenge.FormatDate | challenge.ts:184-187 | no ensures of its own; FormatDateHyphens, FormatDateReorders, FormatDateOneField, FormatDateTwoFields, FormatDateIgnoresExtraFields, FormatDateInvolution and FormatDateIsoLayout fix its result |
| Challenge.FormatDateHyphens | challenge.ts:184-187 | `formatDate` is total, and its result always has exactly two hyphens, whatever the input |
| Challenge.SplitDayMonthYear | challenge.ts:185 | `d-m-y` with hyphen-free fields destructures to day `d`, month `m`, year `y` |
| Challenge.SplitDayMonthYearTail | challenge.ts:185 | with more than three fields the first three are still day, month and year |
| Challenge.FormatDateReorders | challenge.ts:184-187 | for exactly three hyphen-separated fields `d-m-y` the result is `y-m-d` |
| Challenge.FormatDateIgnoresExtraFields | challenge.ts:185-186 | fields after the third are dropped |
| Challenge.FormatDateOneField | challenge.ts:185-186 | with one field (no hyphen), month and year are missing and are written as the text `undefined` |
| Challenge.FormatDateTwoFields | challenge.ts:185-186 | with two fields, the missing year is written as the text `undefined` |
| Challenge.FormatDateInvolution | challenge.ts:185-186 | on strings with exactly two hyphens, applying `formatDate` twice gives the input back |
| Challenge.FormatDateThrice | challenge.ts:184-187 | applying `formatDate` three times equals applying it once |
| Challenge.FormatDateExample | challenge.ts:183-187 | `05-03-2020` becomes `2020-03-05` |
| Challenge.IsoLayoutOfFields | challenge.ts:186 | three hyphen-joined fields have the `YYYY-MM-DD` layout exactly when they are four, two and two digits |
| Challenge.DayMonthYearFields | challenge.ts:185 | a string starts with the `DD-MM-YYYY` layout exactly when its first three split parts are two, two and four digits |
| Challenge.FormatDateIsoLayout | challenge.ts:183-187 | the output has the ISO 8601 `YYYY-MM-DD` layout if and only if the input starts with the `DD-MM-YYYY` layout |
| Challenge.OrganizationOf | challenge.ts:105-114 | no ensures of its own; OrganizationTextRoundTrip, OrganizationNumbers and OrganizationReadsOnlyItsColumns fix every field of the record |
| Challenge.OrganizationTextRoundTrip | challenge.ts:105-114 | the six text fields of an organization record, mapped back to their source column names, are exactly those six columns of the row: copied unchanged, absent when the column is absent |
| Challenge.NumberColumn | challenge.ts:111 | `parseInt` of a column that holds decimal digits gives their value, and of a missing column or one without leading digits gives NaN |
| Challenge.OrganizationNumbers | challenge.ts:111-113 | `Founded` and `NumberOfEmployees` are the numeric value of a digit-only column, and NaN for a missing column or one without leading digits, and the record is still built |
| Challenge.OrganizationReadsOnlyItsColumns | challenge.ts:105-114 | two rows that agree on the eight named columns give the same organization record |
| Challenge.CustomerOf | challenge.ts:143-155 | no ensures of its own; CustomerProjection (the throw at line 153 exactly when the date is missing, and every field otherwise), CustomerSubscription and CustomerReadsOnlyItsColumns fix its result |
| Challenge.CustomerProjection | challenge.ts:143-155 | building a customer record throws exactly when the row has no `Subscription Date`; otherwise its ten text fields are exactly the row's ten named columns, and `Subscription` is `formatDate` of the date |
| Challenge.CustomerSubscription | challenge.ts:153 | a `d-m-y` subscription date is stored as `y-m-d` |
| Challenge.CustomerReadsOnlyItsColumns | challenge.ts:143-155 | two rows that agree on the eleven named columns give the same customer record, or both throw |
| Challenge.LoadOrganizations | challenge.ts:103-115 | one organization record per input row, and record i is built from row i, so count and order are kept and nothing is skipped |
| Challenge.LoadCustomers | challenge.ts:141-156 | the load succeeds exactly when every row has a `Subscription Date`. Then record i is built from row i for every i. Otherwise the failure names the first row without one |

## Left out

- `downloadFile` (challenge.ts:14-55): HTTPS, streams and callbacks. Its progress percentage is floating-point division and `toFixed`.
- `extractTarGz` (challenge.ts:58-76): a wrapper around the gunzip and tar libraries.
- CSV parsing (challenge.ts:99-101, 137-139): the `fast-csv` library is not part of this model. Its output is taken as a given sequence of rows. Its parse errors on malformed lines are not modelled.
- The database work (challenge.ts:82-95, 117-132, 135, 158-176): opening SQLite through knex, dropping and creating the tables with not-null columns, and `batchInsert` in batches of 100. These are library calls. A NaN or `undefined` field failing a not-null constraint happens there.
- `processDataDump` (challenge.ts:190-211) and `runner.ts`: directory creation, console logging, the top-level catch that swallows errors, and `process.exit(0)`.
- EcmaScript.ParseInt: the result is an exact integer. A JavaScript Number loses precision above 2^53, may zero digits after the twentieth significant one, and keeps a negative zero. The model returns 0 for `-0`.
- EcmaScript.Split: the implicit limit of 2^32 - 1 parts is not modelled. Strings are sequences of Unicode scalar values, not UTF-16 code units. None of the characters `split` and `parseInt` look at lies outside the Basic Multilingual Plane.
- Challenge.LoadOrganizations, Challenge.LoadCustomers: the asynchronous iteration of the row stream is modelled as a loop over a finished sequence of rows.
