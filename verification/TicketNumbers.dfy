/** Ticket ids of the form T-001: printing, parsing and the next free number. */
module TicketNumbers {
  import opened Basics

  predicate IsDigit(c: char) {
    '0' <= c <= '9'
  }

  predicate AllDigits(s: string) {
    forall i :: 0 <= i < |s| ==> IsDigit(s[i])
  }

  function DigitOf(d: nat): char
    requires d < 10
  {
    '0' + d as char
  }

  function ValueOf(c: char): nat
    requires IsDigit(c)
  {
    (c - '0') as nat
  }

  /** str(n) */
  function Decimal(n: nat): string {
    if n < 10 then [DigitOf(n)] else Decimal(n / 10) + [DigitOf(n % 10)]
  }

  /** int(s) */
  function Value(s: string): nat
    requires AllDigits(s)
  {
    if s == "" then 0 else 10 * Value(s[..|s| - 1]) + ValueOf(s[|s| - 1])
  }

  function PadToThree(s: string): string
    decreases 3 - |s|
  {
    if |s| >= 3 then s else PadToThree("0" + s)
  }

  /** f"T-{n:03d}" */
  function TicketId(n: nat): string {
    "T-" + PadToThree(Decimal(n))
  }

  /** The number matched by T-(\d+), if the whole id matches. */
  function NumberOf(id: string): Option<nat> {
    if |id| > 2 && id[0] == 'T' && id[1] == '-' && AllDigits(id[2..]) then Some(Value(id[2..])) else None
  }

  // ---------- The round trip ----------

  lemma {:induction false} DecimalRoundTrip(n: nat)
    ensures Decimal(n) != "" && AllDigits(Decimal(n)) && Value(Decimal(n)) == n
  {
    if n >= 10 {
      DecimalRoundTrip(n / 10);
      assert Decimal(n)[..|Decimal(n)| - 1] == Decimal(n / 10);
    } else {
      assert Decimal(n)[..0] == "";
    }
  }

  lemma {:induction false} LeadingZero(s: string)
    requires AllDigits(s)
    ensures AllDigits("0" + s) && Value("0" + s) == Value(s)
  {
    if s == "" {
      assert ("0" + s)[..0] == "";
    } else {
      LeadingZero(s[..|s| - 1]);
      assert ("0" + s)[..|s|] == "0" + s[..|s| - 1];
    }
  }

  lemma {:induction false} PaddingKeepsTheValue(s: string)
    requires AllDigits(s)
    ensures AllDigits(PadToThree(s)) && Value(PadToThree(s)) == Value(s) && |PadToThree(s)| >= 3
    decreases 3 - |s|
  {
    if |s| < 3 {
      LeadingZero(s);
      PaddingKeepsTheValue("0" + s);
    }
  }

  /** A printed id parses back to its number; so different numbers have different ids. */
  lemma TicketIdRoundTrip(n: nat)
    ensures NumberOf(TicketId(n)) == Some(n)
  {
    DecimalRoundTrip(n);
    PaddingKeepsTheValue(Decimal(n));
    assert TicketId(n)[2..] == PadToThree(Decimal(n));
  }

  lemma {:induction false} DecimalStartsPlainly(n: nat)
    ensures Decimal(n) != "" && (n > 0 ==> Decimal(n)[0] != '0')
  {
    if n >= 10 {
      DecimalStartsPlainly(n / 10);
      assert Decimal(n)[0] == Decimal(n / 10)[0];
    }
  }

  lemma {:induction false} PaddingIsShort(s: string)
    ensures |s| >= 3 ==> PadToThree(s) == s
    ensures |s| <= 3 ==> |PadToThree(s)| == 3
    decreases 3 - |s|
  {
    if |s| < 3 {
      PaddingIsShort("0" + s);
    }
  }

  /** T, a dash, and the number in three digits or, without a leading zero, in more. */
  lemma TicketIdShape(n: nat)
    ensures var id := TicketId(n);
            && |id| >= 5 && id[..2] == "T-" && AllDigits(id[2..]) && Value(id[2..]) == n
            && (|id| > 5 ==> id[2] != '0')
  {
    DecimalRoundTrip(n);
    PaddingKeepsTheValue(Decimal(n));
    PaddingIsShort(Decimal(n));
    DecimalStartsPlainly(n);
    var id := TicketId(n);
    assert id[2..] == PadToThree(Decimal(n));
  }

  // ---------- The next number ----------

  /** One more than the largest number in use. */
  function NextNumber(ids: seq<string>): nat {
    LargestNumber(ids, |ids|) + 1
  }

  function LargestNumber(ids: seq<string>, k: nat): nat
    requires k <= |ids|
  {
    if k == 0 then 0
    else
      var largest := LargestNumber(ids, k - 1);
      match NumberOf(ids[k - 1])
      case None => largest
      case Some(n) => Max(largest, n)
  }

  lemma {:induction false} LargestIsLargest(ids: seq<string>, k: nat, i: nat)
    requires i < k <= |ids| && NumberOf(ids[i]).Some?
    ensures NumberOf(ids[i]).value <= LargestNumber(ids, k)
  {
    if i < k - 1 {
      LargestIsLargest(ids, k - 1, i);
    }
  }

  /** No id from the next number on is in use, however its number is written there. */
  lemma NewIdsAreFresh(ids: seq<string>, n: nat)
    requires n >= NextNumber(ids)
    ensures TicketId(n) !in ids
  {
    TicketIdRoundTrip(n);
    if TicketId(n) in ids {
      var i :| 0 <= i < |ids| && ids[i] == TicketId(n);
      LargestIsLargest(ids, |ids|, i);
    }
  }
  /** T, a dash, and one digit or more. */
  predicate HasNumber(id: string) {
    |id| >= 3 && id[..2] == "T-" && AllDigits(id[2..])
  }

  /** Above the number of every id; and one more than some number in use, or 1 when no id has a positive one. */
  ghost predicate IsNext(ids: seq<string>, next: nat) {
    && next >= 1
    && (forall id :: id in ids && HasNumber(id) ==> Value(id[2..]) < next)
    && (next == 1 || exists id :: id in ids && HasNumber(id) && Value(id[2..]) == next - 1)
  }

  lemma NextIsNext(ids: seq<string>)
    ensures IsNext(ids, NextNumber(ids))
  {
    forall id | id in ids && HasNumber(id) ensures Value(id[2..]) < NextNumber(ids) {
      var i :| 0 <= i < |ids| && ids[i] == id;
      assert id[0] == id[..2][0] && id[1] == id[..2][1];
      LargestIsLargest(ids, |ids|, i);
    }
    LargestIsInUse(ids, |ids|);
  }

  lemma {:induction false} LargestIsInUse(ids: seq<string>, k: nat)
    requires k <= |ids|
    ensures LargestNumber(ids, k) == 0
      || exists id :: id in ids && HasNumber(id) && Value(id[2..]) == LargestNumber(ids, k)
  {
    if k > 0 {
      LargestIsInUse(ids, k - 1);
      var id := ids[k - 1];
      assert NumberOf(id).Some? ==> id[..2] == [id[0], id[1]] == "T-";
    }
  }

  method NextTicketNumber(ids: seq<string>) returns (next: nat)
    ensures next == NextNumber(ids)
    ensures IsNext(ids, next)
  {
    var maxNumber := 0;
    for k := 0 to |ids|
      invariant maxNumber == LargestNumber(ids, k)
    {
      var number := NumberOf(ids[k]);
      if number.Some? {
        maxNumber := Max(maxNumber, number.value);
      }
    }
    NextIsNext(ids);
    return maxNumber + 1;
  }
}
