/** Calendar dates as the progress view reads them back from the stored
    `dd/mm/yyyy` string: the string is rearranged into `yyyy-mm-dd` and
    compared by its point in time, which for well-formed dates is the
    lexicographic order on (year, month, day). */
module Calendar {

  datatype Date = Date(year: int, month: int, day: int)

  /** `a` lies strictly before `b` on the calendar. */
  predicate Earlier(a: Date, b: Date) {
    || a.year < b.year
    || (a.year == b.year && a.month < b.month)
    || (a.year == b.year && a.month == b.month && a.day < b.day)
  }
}
