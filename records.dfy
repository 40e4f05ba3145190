/** The records the engine reads and produces: one person per input row and one
    result row (a dictionary in the Python program) per finished task. */
module Records {
  import opened Wrappers

  /** An input person: `First Name`, `Last Name`, `University` and an optional
      `Graduation Year`. */
  datatype Person = Person(firstName: string, lastName: string, university: string,
                           gradYear: Option<string>)

  /** The `Income (Estimated)` column: the placeholder "Unknown" or a dollar amount
      (printed as `$123,456` by the program). */
  datatype Income = Unknown | Dollars(amount: int)

  /** One result row. `score` is `None` for the "N/A" of the sentinel rows and
      otherwise the percentage (`Score`, printed as `87%`) the row was chosen with; `status` and `no`
      are the `Status` and `No.` keys, absent until the table is displayed. */
  datatype Row = Row(firstName: string, lastName: string, university: string,
                     gradYear: string, title: string, url: string, score: Option<int>,
                     location: string, income: Income, status: Option<string>,
                     no: Option<nat>)

  const NotFound: string := "Not Found"
  const ErrorTitle: string := "Error"
  const NotAvailable: string := "N/A"
  const UnknownLocation: string := "Unknown"
  const MatchFound: string := "\U{2705} Match Found"
  const NoMatch: string := "\U{274c} No Match"

  /** `person.get("Graduation Year", "N/A")`. */
  function GradYear(p: Person): string
  {
    if p.gradYear.Some? then p.gradYear.value else NotAvailable
  }

  /** The row a task appends when it has no result: every identity field "N/A",
      an empty URL and the given title ("Not Found" or "Error"). */
  function SentinelRow(title: string): Row
  {
    Row(NotAvailable, NotAvailable, NotAvailable, NotAvailable, title, "", None,
        UnknownLocation, Unknown, None, None)
  }
}
