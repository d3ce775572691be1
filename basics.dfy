/** Values shared by the whole model: optional values and outcomes, money,
    calendar instants, and the string operations the controllers rely on
    (substring search for SQL `LIKE '%term%'`, PHP's ASCII `strtoupper`,
    decimal parsing of a request parameter). */
module Basics {

  datatype Option<+T> = None | Some(value: T)

  datatype Result<+T, +E> = Ok(value: T) | Err(error: E)

  /** Money in cents: the `decimal(10,2)` columns read through the `decimal:2` cast. */
  type Cents = int

  function Min(a: int, b: int): int { if a <= b then a else b }

  // ---------------------------------------------------------------- dates

  /** A `timestamp` column value: a calendar date and the second of that day. */
  datatype DateTime = DateTime(year: int, month: int, day: int, second: int)

  predicate WellFormed(t: DateTime) {
    1 <= t.month <= 12 && 1 <= t.day <= 31 && 0 <= t.second < 86400
  }

  /** Chronological order, field by field. */
  predicate Earlier(a: DateTime, b: DateTime) {
    a.year < b.year
    || (a.year == b.year && a.month < b.month)
    || (a.year == b.year && a.month == b.month && a.day < b.day)
    || (a.year == b.year && a.month == b.month && a.day == b.day && a.second < b.second)
  }

  /** The instant as one integer, used as the sort key of `ORDER BY <timestamp>`. */
  function Instant(t: DateTime): int {
    ((t.year * 12 + (t.month - 1)) * 31 + (t.day - 1)) * 86400 + t.second
  }

  /** On well-formed timestamps the integer key orders exactly as the calendar does. */
  lemma InstantIsChronological(a: DateTime, b: DateTime)
    requires WellFormed(a) && WellFormed(b)
    ensures Instant(a) < Instant(b) <==> Earlier(a, b)
    ensures Instant(a) == Instant(b) <==> a == b
  {
    var da := (a.year * 12 + (a.month - 1)) * 31 + (a.day - 1);
    var db := (b.year * 12 + (b.month - 1)) * 31 + (b.day - 1);
    assert Instant(a) == da * 86400 + a.second && Instant(b) == db * 86400 + b.second;
    assert Instant(a) < Instant(b) <==> da < db || (da == db && a.second < b.second) by {
      if da < db { assert da * 86400 <= db * 86400 - 86400; }
      if db < da { assert db * 86400 <= da * 86400 - 86400; }
    }
    var ma := a.year * 12 + (a.month - 1);
    var mb := b.year * 12 + (b.month - 1);
    assert da < db <==> ma < mb || (ma == mb && a.day < b.day);
    assert da == db <==> ma == mb && a.day == b.day;
    assert ma < mb <==> a.year < b.year || (a.year == b.year && a.month < b.month);
    assert ma == mb <==> a.year == b.year && a.month == b.month;
  }

  /** The calendar date part, as SQL `DATE(column)` and Carbon's `toDateString()` give it. */
  predicate SameDate(a: DateTime, b: DateTime) {
    a.year == b.year && a.month == b.month && a.day == b.day
  }

  // -------------------------------------------------------------- strings

  /** `t` occurs in `s` as a contiguous piece: the meaning of `s LIKE '%t%'`
      when `t` holds no wildcard. */
  predicate Contains(s: string, t: string) {
    t <= s || (|s| > 0 && Contains(s[1..], t))
  }

  /** `t` sits in `s` at position `i`. */
  predicate OccursAt(s: string, t: string, i: nat) {
    i + |t| <= |s| && s[i..i + |t|] == t
  }

  lemma {:induction false} ContainsAt(s: string, t: string, i: nat)
    requires OccursAt(s, t, i)
    ensures Contains(s, t)
  {
    if i == 0 {
      assert t <= s;
    } else {
      assert s[1..][i - 1..i - 1 + |t|] == s[i..i + |t|];
      assert OccursAt(s[1..], t, i - 1);
      ContainsAt(s[1..], t, i - 1);
    }
  }

  lemma {:induction false} ContainsFound(s: string, t: string) returns (i: nat)
    requires Contains(s, t)
    ensures OccursAt(s, t, i)
  {
    if t <= s {
      assert s[0..|t|] == t;
      i := 0;
    } else {
      var j := ContainsFound(s[1..], t);
      assert s[j + 1..j + 1 + |t|] == s[1..][j..j + |t|];
      i := j + 1;
    }
  }

  /** Substring search as a window: `t` occurs in `s` iff some window of `s` equals it. */
  lemma ContainsIff(s: string, t: string)
    ensures Contains(s, t) <==> exists i :: OccursAt(s, t, i)
  {
    if Contains(s, t) {
      var i := ContainsFound(s, t);
    }
    if exists i :: OccursAt(s, t, i) {
      var i :| OccursAt(s, t, i);
      ContainsAt(s, t, i);
    }
  }

  predicate IsLower(c: char) { 'a' <= c <= 'z' }
  predicate IsUpper(c: char) { 'A' <= c <= 'Z' }
  predicate IsDigit(c: char) { '0' <= c <= '9' }
  predicate IsAlphaNumeric(c: char) { IsLower(c) || IsUpper(c) || IsDigit(c) }

  /** PHP 8's `strtoupper` on one character: ASCII letters only, independent of locale. */
  function UpperChar(c: char): (u: char)
    ensures IsLower(c) ==> IsUpper(u) && u as int == c as int - 32
    ensures !IsLower(c) ==> u == c
  {
    if IsLower(c) then (c as int - 32) as char else c
  }

  function Upper(s: string): (r: string)
    ensures |r| == |s|
    ensures forall i :: 0 <= i < |s| ==> r[i] == UpperChar(s[i])
  {
    if s == [] then [] else [UpperChar(s[0])] + Upper(s[1..])
  }

  /** The value of a string of decimal digits; `None` for anything else. */
  function ParseNat(s: string): (r: Option<nat>)
    ensures r.Some? <==> |s| > 0 && forall i :: 0 <= i < |s| ==> IsDigit(s[i])
  {
    if |s| == 0 then None
    else if !IsDigit(s[|s| - 1]) then None
    else
      var d := (s[|s| - 1] as int - '0' as int) as nat;
      if |s| == 1 then Some(d)
      else match ParseNat(s[..|s| - 1])
        case None => None
        case Some(n) => Some(10 * n + d)
  }

  /** The decimal spelling of a natural number, without leading zeros. */
  function NatToString(n: nat): (s: string)
    ensures |s| > 0
    ensures forall i :: 0 <= i < |s| ==> IsDigit(s[i])
  {
    var d := ['0' + (n % 10) as char];
    if n < 10 then d else NatToString(n / 10) + d
  }

  lemma {:induction false} ParseNatToString(n: nat)
    ensures ParseNat(NatToString(n)) == Some(n)
  {
    var s := NatToString(n);
    if n >= 10 {
      ParseNatToString(n / 10);
      assert s[..|s| - 1] == NatToString(n / 10);
    }
  }
}
