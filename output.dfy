/**
 * The solution file (toSolutionLines): the number of committed projects, then
 * for each one its name and the space-separated names of its team in slot
 * order. The parsers here are not in the program; they are the inverses the
 * layout is checked against.
 */
module Output {
  import opened Domain

  function DigitChar(d: nat): (c: char)
    requires d < 10
    ensures '0' <= c <= '9'
  {
    "0123456789"[d]
  }

  function DigitValue(c: char): nat
    requires '0' <= c <= '9'
  {
    (c as int - '0' as int) as nat
  }

  predicate AllDigits(s: string) {
    forall i :: 0 <= i < |s| ==> '0' <= s[i] <= '9'
  }

  /** Decimal notation of a count (Int.toString on a non-negative value). */
  function NatToString(n: nat): (r: string)
    ensures |r| > 0 && AllDigits(r)
    ensures r[0] == '0' ==> n == 0
  {
    if n < 10 then [DigitChar(n)]
    else NatToString(n / 10) + [DigitChar(n % 10)]
  }

  /** Reads a string of decimal digits. */
  function ParseNat(s: string): nat
    requires AllDigits(s)
  {
    if |s| == 0 then 0
    else ParseNat(s[..|s| - 1]) * 10 + DigitValue(s[|s| - 1])
  }

  lemma DigitRoundTrip(d: nat)
    requires d < 10
    ensures DigitValue(DigitChar(d)) == d
  {
  }

  /** Printing a count and reading it back gives the count. */
  lemma {:induction false} ParseNatToString(n: nat)
    ensures ParseNat(NatToString(n)) == n
  {
    var r := NatToString(n);
    if n < 10 {
      DigitRoundTrip(n);
      assert r[..0] == [];
    } else {
      ParseNatToString(n / 10);
      DigitRoundTrip(n % 10);
      assert r[..|r| - 1] == NatToString(n / 10);
    }
  }

  /** The names separated by single spaces (joinToString(" ")). */
  function Join(xs: seq<string>): string {
    if |xs| == 0 then ""
    else if |xs| == 1 then xs[0]
    else xs[0] + " " + Join(xs[1..])
  }

  /** Cuts a line at every space, keeping empty fields (String.split(" ")). */
  function Split(s: string): (r: seq<string>)
    ensures |r| > 0
  {
    if |s| == 0 then [""]
    else if s[0] == ' ' then [""] + Split(s[1..])
    else
      var rest := Split(s[1..]);
      [[s[0]] + rest[0]] + rest[1..]
  }

  lemma {:induction false} SplitNoSpace(x: string, tail: string)
    requires ' ' !in x
    ensures Split(x + tail) == [x + Split(tail)[0]] + Split(tail)[1..]
  {
    if |x| > 0 {
      assert (x + tail)[1..] == x[1..] + tail;
      assert (x + tail)[0] == x[0];
      SplitNoSpace(x[1..], tail);
      assert [x[0]] + (x[1..] + Split(tail)[0]) == x + Split(tail)[0];
    } else {
      var r := Split(tail);
      assert x + tail == tail && x + r[0] == r[0];
      assert r == [r[0]] + r[1..];
    }
  }

  /** A team line splits back into the names when no name contains a space. */
  lemma {:induction false} SplitJoin(xs: seq<string>)
    requires |xs| > 0 && forall i :: 0 <= i < |xs| ==> ' ' !in xs[i]
    ensures Split(Join(xs)) == xs
  {
    if |xs| == 1 {
      SplitNoSpace(xs[0], "");
      assert xs[0] + "" == xs[0];
    } else {
      SplitJoin(xs[1..]);
      var tail := " " + Join(xs[1..]);
      assert xs[0] + " " + Join(xs[1..]) == xs[0] + tail;
      SplitNoSpace(xs[0], tail);
      assert Split(tail) == [""] + Split(Join(xs[1..]));
      assert xs[0] + "" == xs[0];
      assert xs == [xs[0]] + xs[1..];
    }
  }

  /** The names of a team, in slot order. */
  function TeamNames(people: seq<Contributor>, team: seq<nat>): (r: seq<string>)
    requires ValidIds(people, team)
    ensures |r| == |team| && forall k :: 0 <= k < |team| ==> r[k] == people[team[k]].name
  {
    seq(|team|, k requires 0 <= k < |team| => people[team[k]].name)
  }

  /** Every assignment names a project and a team of the arena. */
  predicate Printable(assignments: seq<Assignment>, projects: seq<Project>, people: seq<Contributor>) {
    forall k :: 0 <= k < |assignments| ==>
      assignments[k].project < |projects| && ValidIds(people, assignments[k].contributors)
  }

  /** Two lines per assignment: the project's name, then its team. */
  function Body(assignments: seq<Assignment>, projects: seq<Project>, people: seq<Contributor>): (r: seq<string>)
    requires Printable(assignments, projects, people)
    ensures |r| == 2 * |assignments|
    ensures forall k :: 0 <= k < |assignments| ==>
              r[2 * k] == projects[assignments[k].project].name &&
              r[2 * k + 1] == Join(TeamNames(people, assignments[k].contributors))
  {
    if |assignments| == 0 then []
    else
      var n := |assignments| - 1;
      var a := assignments[n];
      Body(assignments[..n], projects, people) + [projects[a.project].name, Join(TeamNames(people, a.contributors))]
  }

  /** The solution file: the count, then the two lines of each assignment. */
  function ToSolutionLines(assignments: seq<Assignment>, projects: seq<Project>, people: seq<Contributor>): (r: seq<string>)
    requires Printable(assignments, projects, people)
    ensures |r| == 1 + 2 * |assignments|
    ensures AllDigits(r[0]) && ParseNat(r[0]) == |assignments|
    ensures forall k :: 0 <= k < |assignments| ==>
              r[1 + 2 * k] == projects[assignments[k].project].name &&
              r[2 + 2 * k] == Join(TeamNames(people, assignments[k].contributors))
  {
    ParseNatToString(|assignments|);
    [NatToString(|assignments|)] + Body(assignments, projects, people)
  }
}
