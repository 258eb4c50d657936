/** The dashboard: the four headline numbers over the cached list and the
    success rate, (offers + accepted) / total as a percentage with one
    decimal, or "0" for an empty list. */
module Dashboard {
  import opened Rows

  /** The `stats` record. Rejected applications are not tallied here. */
  datatype Stats = Stats(total: nat, applied: nat, interviews: nat, offers: nat, accepted: nat)

  function StatsOf(jobs: seq<Row>): (s: Stats)
    ensures s.total == |jobs|
    ensures s.applied == CountStatus(jobs, Applied) && s.interviews == CountStatus(jobs, Interview)
    ensures s.offers == CountStatus(jobs, Offer) && s.accepted == CountStatus(jobs, Accepted)
    ensures s.applied + s.interviews + s.offers + s.accepted == s.total - CountStatus(jobs, Rejected)
    ensures s.applied + s.interviews + s.offers + s.accepted <= s.total
    ensures s.offers + s.accepted <= s.total
  {
    CountsPartition(jobs);
    Stats(|jobs|, CountStatus(jobs, Applied), CountStatus(jobs, Interview),
          CountStatus(jobs, Offer), CountStatus(jobs, Accepted))
  }

  function DigitChar(d: nat): (c: char)
    requires d < 10
    ensures '0' <= c <= '9'
  {
    "0123456789"[d]
  }

  function DigitValue(c: char): (d: nat)
    requires '0' <= c <= '9'
    ensures d < 10 && DigitChar(d) == c
  {
    c as int - '0' as int
  }

  predicate IsDigits(s: string)
  {
    forall i :: 0 <= i < |s| ==> '0' <= s[i] <= '9'
  }

  /** A decimal numeral as a number is written: at least one digit and no
      leading zero, except in "0" itself. */
  predicate IsNumeral(s: string)
  {
    |s| > 0 && IsDigits(s) && (s[0] == '0' ==> |s| == 1)
  }

  /** The decimal text of `n`, as a number is rendered on the page. */
  function NatToString(n: nat): (s: string)
    ensures IsNumeral(s)
    ensures s[0] == '0' ==> n == 0
  {
    if n < 10 then [DigitChar(n)] else NatToString(n / 10) + [DigitChar(n % 10)]
  }

  /** The value of a string of decimal digits. */
  function ParseNat(s: string): nat
    requires IsDigits(s)
  {
    if s == [] then 0 else 10 * ParseNat(s[..|s| - 1]) + DigitValue(s[|s| - 1])
  }

  /** Reading back the rendered text gives the number. */
  lemma {:induction false} NatToStringRoundTrip(n: nat)
    ensures ParseNat(NatToString(n)) == n
  {
    var s := NatToString(n);
    if n < 10 {
      assert s[..0] == [];
      assert DigitValue(DigitChar(n)) == n;
    } else {
      NatToStringRoundTrip(n / 10);
      assert s[..|s| - 1] == NatToString(n / 10);
      assert DigitValue(DigitChar(n % 10)) == n % 10;
    }
  }

  /** A numeral whose first digit is not zero has a positive value. */
  lemma {:induction false} LeadingDigitPositive(s: string)
    requires |s| > 0 && IsDigits(s) && s[0] != '0'
    ensures ParseNat(s) > 0
  {
    if |s| > 1 {
      var p := s[..|s| - 1];
      assert p[0] == s[0];
      LeadingDigitPositive(p);
    } else {
      assert s[..0] == [];
    }
  }

  /** Every numeral is the rendered text of its value, so a number has
      exactly one numeral. */
  lemma {:induction false} NumeralUnique(s: string)
    requires IsNumeral(s)
    ensures NatToString(ParseNat(s)) == s
  {
    var n := ParseNat(s);
    var d := DigitValue(s[|s| - 1]);
    var p := s[..|s| - 1];
    if |s| == 1 {
      assert p == [];
      assert ParseNat(p) == 0;
      assert NatToString(n) == [DigitChar(d)];
    } else {
      assert p[0] == s[0];
      assert IsNumeral(p);
      LeadingDigitPositive(p);
      NumeralUnique(p);
      var m := ParseNat(p);
      assert n == 10 * m + d;
      assert n / 10 == m && n % 10 == d;
      assert s == p + [s[|s| - 1]];
    }
  }

  /** The share `good / total` in tenths of a percent, rounded to the nearest
      tenth with halves rounded up; 0 for an empty list. */
  function RateTenths(good: nat, total: nat): (t: nat)
    ensures total == 0 ==> t == 0
    ensures total > 0 ==> 2 * t * total <= 2000 * good + total
    ensures total > 0 ==> 2000 * good + total < 2 * t * total + 2 * total
  {
    if total == 0 then 0 else (1000 * good + total / 2) / total
  }

  /** A share of at most the whole is at most 100.0 percent. */
  lemma RateTenthsAtMost(good: nat, total: nat)
    requires good <= total
    ensures RateTenths(good, total) <= 1000
  {
    if total > 0 {
      var q := 1000 * good + total / 2;
      assert q < 1001 * total;
      QuotientBelow(q, total, 1001);
    }
  }

  lemma QuotientBelow(q: nat, d: nat, k: nat)
    requires d > 0 && q < k * d
    ensures q / d < k
  {
    assert (q / d) * d <= q;
    if q / d >= k {
      MulMono(q / d, k, d);
    }
  }

  lemma MulMono(a: nat, b: nat, c: nat)
    requires a >= b
    ensures a * c >= b * c
  {
  }

  /** `s` is a whole-number numeral, a point and one digit, and reads as `t`
      tenths. */
  ghost predicate ReadsAsTenths(s: string, t: nat)
  {
    && |s| >= 3
    && s[|s| - 2] == '.'
    && IsNumeral(s[..|s| - 2]) && '0' <= s[|s| - 1] <= '9'
    && 10 * ParseNat(s[..|s| - 2]) + DigitValue(s[|s| - 1]) == t
  }

  /** The text of a rate given in tenths: whole percent, a point, one digit. */
  function TenthsText(t: nat): (s: string)
    ensures ReadsAsTenths(s, t)
  {
    var w := NatToString(t / 10);
    NatToStringRoundTrip(t / 10);
    var s := w + "." + [DigitChar(t % 10)];
    assert s[..|s| - 2] == w;
    s
  }

  /** At most one text reads as a given number of tenths. */
  lemma ReadsAsTenthsUnique(s: string, u: string, t: nat)
    requires ReadsAsTenths(s, t) && ReadsAsTenths(u, t)
    ensures s == u
  {
    var ws, wu := s[..|s| - 2], u[..|u| - 2];
    var ds, du := DigitValue(s[|s| - 1]), DigitValue(u[|u| - 1]);
    assert 10 * ParseNat(ws) + ds == 10 * ParseNat(wu) + du;
    assert ds == du && ParseNat(ws) == ParseNat(wu);
    NumeralUnique(ws);
    NumeralUnique(wu);
    assert s == ws + "." + [s[|s| - 1]];
    assert u == wu + "." + [u[|u| - 1]];
  }

  /** `successRate`: "0" for an empty list, otherwise the text of the
      percentage of offers and acceptances, rounded to a tenth. */
  function SuccessRate(s: Stats): (r: string)
    ensures s.total == 0 ==> r == "0"
    ensures s.total > 0 ==> ReadsAsTenths(r, RateTenths(s.offers + s.accepted, s.total))
  {
    if s.total > 0 then TenthsText(RateTenths(s.offers + s.accepted, s.total)) else "0"
  }

  /** For the rows of any list the rate lies between 0.0 and 100.0. */
  lemma SuccessRateInRange(jobs: seq<Row>)
    ensures |jobs| > 0 ==> RateTenths(StatsOf(jobs).offers + StatsOf(jobs).accepted, |jobs|) <= 1000
  {
    var s := StatsOf(jobs);
    if |jobs| > 0 {
      RateTenthsAtMost(s.offers + s.accepted, s.total);
    }
  }

  /** One offer among four applications is a 25.0 percent success rate. */
  lemma SuccessRateExample()
    ensures SuccessRate(Stats(4, 3, 0, 1, 0)) == "25.0"
  {
    assert RateTenths(1, 4) == 250;
    assert NatToString(25) == "25";
  }

  /** One dashboard card: its title and the text shown as its value. */
  datatype StatCard = StatCard(title: string, value: string)

  /** The four cards in page order: total, pending, interviews and success
      rate, each showing its own figure. */
  function StatCards(s: Stats): (r: seq<StatCard>)
    ensures |r| == 4
    ensures r[0].title == "Total Applications" && r[1].title == "Pending Applications"
    ensures r[2].title == "Interviews Scheduled" && r[3].title == "Success Rate"
    ensures IsNumeral(r[0].value) && ParseNat(r[0].value) == s.total
    ensures IsNumeral(r[1].value) && ParseNat(r[1].value) == s.applied
    ensures IsNumeral(r[2].value) && ParseNat(r[2].value) == s.interviews
    ensures r[3].value == SuccessRate(s) + "%"
  {
    var total, applied, interviews := NatToString(s.total), NatToString(s.applied), NatToString(s.interviews);
    NatToStringRoundTrip(s.total);
    NatToStringRoundTrip(s.applied);
    NatToStringRoundTrip(s.interviews);
    [ StatCard("Total Applications", total),
      StatCard("Pending Applications", applied),
      StatCard("Interviews Scheduled", interviews),
      StatCard("Success Rate", SuccessRate(s) + "%") ]
  }
}
