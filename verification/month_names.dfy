/** The English month names offered by the configuration form (`MONTHS` in
    const.py) and the month numbers that `%B` in `strptime` maps them to. */
module MonthNames {
  import opened Wrappers

  const Months: seq<string> := [
    "January", "February", "March", "April", "May", "June",
    "July", "August", "September", "October", "November", "December"
  ]

  /** The name `strptime` would print with `%B` for month `m`. */
  function MonthName(m: int): (name: string)
    requires 1 <= m <= 12
    ensures name in Months
  {
    Months[m - 1]
  }

  /** The month number `%B` parses `name` as, or `None` when `name` is not a
      full month name. */
  function MonthNumber(name: string): (r: Option<int>)
    ensures r.Some? <==> name in Months
    ensures r.Some? ==> 1 <= r.value <= 12 && Months[r.value - 1] == name
  {
    FindMonth(name, 0)
  }

  function FindMonth(name: string, i: nat): (r: Option<int>)
    requires i <= |Months|
    ensures r.Some? <==> name in Months[i..]
    ensures r.Some? ==> i + 1 <= r.value <= 12 && Months[r.value - 1] == name
    decreases |Months| - i
  {
    if i == |Months| then None
    else if Months[i] == name then Some(i + 1)
    else FindMonth(name, i + 1)
  }

  /** Month names and month numbers are in one-to-one correspondence. */
  lemma MonthNameRoundTrip(m: int)
    requires 1 <= m <= 12
    ensures MonthNumber(MonthName(m)) == Some(m)
  {
    var r := MonthNumber(MonthName(m));
    assert r.Some?;
    if r.value != m {
      MonthsDistinct(r.value - 1, m - 1);
    }
  }

  /** No two months share a name: the length and the first and third letters
      already tell them apart. */
  lemma MonthsDistinct(i: int, j: int)
    requires 0 <= i < 12 && 0 <= j < 12 && i != j
    ensures Months[i] != Months[j]
  {
    var a, b := Months[i], Months[j];
    assert (|a|, a[0], a[2]) != (|b|, b[0], b[2]);
  }
}
