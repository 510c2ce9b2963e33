/** Display codes: zero-padded printing, MAX+1 allocation under a table lock, the
    allocation capped below 5000, and the unit codes derived from a row count. */
module Numbering {
  import opened Outcomes

  // ---- decimal printing and parsing -------------------------------------------------

  function Digit(d: nat): char
    requires d < 10
  {
    (('0' as int) + d) as char
  }

  predicate IsDigit(c: char) {
    '0' <= c <= '9'
  }

  /** `String(n)` for a non-negative integer. */
  function Decimal(n: nat): string {
    if n < 10 then [Digit(n)] else Decimal(n / 10) + [Digit(n % 10)]
  }

  /** `s.padStart(width, '0')`. */
  function PadStart(s: string, width: nat): string
    decreases width - |s|
  {
    if |s| >= width then s else PadStart("0" + s, width)
  }

  /** `String(n).padStart(2, '0')`. */
  function Padded(n: nat): string {
    PadStart(Decimal(n), 2)
  }

  function Value(s: string): nat
    requires forall c | c in s :: IsDigit(c)
  {
    if s == [] then 0
    else
      var last := s[|s| - 1];
      assert IsDigit(last);
      10 * Value(s[..|s| - 1]) + (last as int - '0' as int)
  }

  /** `CAST(s AS INTEGER)` on text made of digits; anything else does not parse here. */
  function ParseInteger(s: string): Option<nat> {
    if s != [] && forall c | c in s :: IsDigit(c) then Some(Value(s)) else None
  }

  lemma {:induction false} DecimalDigits(n: nat)
    ensures forall c | c in Decimal(n) :: IsDigit(c)
    ensures Decimal(n) != []
    ensures Value(Decimal(n)) == n
  {
    if n >= 10 {
      DecimalDigits(n / 10);
      var s := Decimal(n / 10) + [Digit(n % 10)];
      assert s[..|s| - 1] == Decimal(n / 10);
    }
  }

  /** Width of a decimal numeral against the powers of ten used below. */
  lemma {:induction false} DecimalWidth(n: nat)
    ensures n < 10 <==> |Decimal(n)| == 1
    ensures 10 <= n < 100 <==> |Decimal(n)| == 2
    ensures 100 <= n < 1000 <==> |Decimal(n)| == 3
  {
    if n >= 10 {
      DecimalWidth(n / 10);
      DecimalDigits(n / 10);
    }
  }

  /** Putting text in front of a numeral shifts the front by the numeral's width. */
  lemma {:induction false} ValueConcat(s: string, t: string)
    requires forall c | c in s + t :: IsDigit(c)
    ensures forall c | c in s :: IsDigit(c)
    ensures forall c | c in t :: IsDigit(c)
    ensures Value(s + t) == Value(s) * Pow10(|t|) + Value(t)
  {
    assert forall c | c in s :: c in s + t;
    assert forall c | c in t :: c in s + t;
    if t == [] {
      assert s + t == s;
    } else {
      var t' := t[..|t| - 1];
      assert (s + t)[..|s + t| - 1] == s + t';
      assert forall c | c in s + t' :: c in s + t;
      ValueConcat(s, t');
      assert Value(s + t) == 10 * (Value(s) * Pow10(|t'|) + Value(t')) + (t[|t| - 1] as int - '0' as int);
      ShiftOnce(Value(s), Pow10(|t'|));
    }
  }

  lemma ShiftOnce(v: nat, p: nat)
    ensures 10 * (v * p) == v * (10 * p)
  {
  }

  function Pow10(k: nat): nat {
    if k == 0 then 1 else 10 * Pow10(k - 1)
  }

  lemma PaddedShape(n: nat)
    ensures Padded(n) == if n < 10 then "0" + Decimal(n) else Decimal(n)
  {
    hide Decimal;
    DecimalWidth(n);
    DecimalDigits(n);
    var s := Decimal(n);
    if n < 10 {
      assert PadStart("0" + s, 2) == "0" + s;
    }
  }

  /** The allocation rests on this: at every width, the printed code reads back as its number. */
  lemma {:induction false} PaddedRoundTrip(n: nat)
    ensures ParseInteger(Padded(n)) == Some(n)
    ensures |Padded(n)| >= 2
  {
    DecimalDigits(n);
    DecimalWidth(n);
    PaddedShape(n);
    if n < 10 {
      ValueConcat("0", Decimal(n));
      assert Value("0") == 0;
    }
  }

  lemma PaddedInjective(m: nat, n: nat)
    requires Padded(m) == Padded(n)
    ensures m == n
  {
    PaddedRoundTrip(m);
    PaddedRoundTrip(n);
  }

  // ---- lease codes: lock, MAX+1, insert, commit or roll back ---------------------------

  /** `L-${String(seq).padStart(2, '0')}`. */
  function LeaseCode(n: nat): string {
    "L-" + Padded(n)
  }

  /** `CAST(SUBSTRING(code FROM 3) AS INTEGER)`. */
  function LeaseNumber(code: string): Option<nat> {
    if |code| < 2 then None else ParseInteger(code[2..])
  }

  lemma LeaseNumberOfCode(n: nat)
    ensures LeaseNumber(LeaseCode(n)) == Some(n)
  {
    PaddedRoundTrip(n);
    assert LeaseCode(n)[2..] == Padded(n);
  }

  /** `COALESCE(MAX(...), 0)` over the codes the query sees. */
  function MaxLeaseNumber(codes: seq<string>): nat {
    if codes == [] then 0
    else
      var rest := MaxLeaseNumber(codes[..|codes| - 1]);
      match LeaseNumber(codes[|codes| - 1])
      case Some(n) => if n > rest then n else rest
      case None => rest
  }

  /** The maximum is a number of the table, or 0 when no code of it has one. */
  lemma {:induction false} MaxIsInTable(codes: seq<string>)
    ensures MaxLeaseNumber(codes) == 0 || exists code :: code in codes && LeaseNumber(code) == Some(MaxLeaseNumber(codes))
    ensures forall code | code in codes && LeaseNumber(code).Some? :: LeaseNumber(code).value <= MaxLeaseNumber(codes)
  {
    hide LeaseNumber;
    if codes != [] {
      var front, last := codes[..|codes| - 1], codes[|codes| - 1];
      MaxIsInTable(front);
      assert forall code :: code in codes <==> code in front || code == last;
    }
  }

  /** How codes read: the prefix, then at least two digits with no padding beyond that, which say
      the number. */
  lemma CodesRead(n: nat)
    ensures LeaseCode(n)[..2] == "L-" && UnitCode(1, n)[..3] == "U-1"
    ensures n < 10 ==> LeaseCode(n)[2..] == ['0', Digit(n)] && UnitCode(1, n)[3..] == ['0', Digit(n)]
    ensures n >= 10 ==> LeaseCode(n)[2..] == Decimal(n) == UnitCode(1, n)[3..] && Decimal(n)[0] != '0'
  {
    PaddedShape(n);
    assert LeaseCode(n)[2..] == Padded(n);
    assert Decimal(1) == "1";
    assert UnitCode(1, n) == "U-1" + Padded(n);
    NoLeadingZero(n);
  }

  lemma {:induction false} NoLeadingZero(n: nat)
    ensures |Decimal(n)| > 0 && (n > 0 ==> Decimal(n)[0] != '0')
  {
    if n >= 10 {
      NoLeadingZero(n / 10);
    }
  }

  lemma SeventhAndHundredth()
    ensures LeaseCode(7) == "L-07" && LeaseCode(100) == "L-100" && UnitCode(1, 1) == "U-101"
  {
    PaddedShape(7);
    PaddedShape(1);
    PaddedShape(100);
    assert Decimal(7) == ['7'] && Decimal(1) == ['1'] && Decimal(10) == ['1', '0'];
    assert Decimal(100) == Decimal(10) + ['0'];
  }

  /** The leases table: committed codes, the holder of the SHARE ROW EXCLUSIVE lock, and
      the row each open transaction has inserted but not committed. */
  datatype LeaseTable = LeaseTable(codes: seq<string>, holder: Option<nat>, drafts: map<nat, string>)

  datatype TxStep = Lock(tx: nat) | Insert(tx: nat) | Commit(tx: nat) | Rollback(tx: nat)

  function Release(t: LeaseTable, tx: nat): LeaseTable {
    t.(holder := if t.holder == Some(tx) then None else t.holder, drafts := t.drafts - {tx})
  }

  /** One step of one transaction. `locking` says whether transactions take the table lock
      before they query, as the service does; a blocked step leaves the table as it is. */
  function TxNext(t: LeaseTable, step: TxStep, locking: bool): LeaseTable {
    match step
    case Lock(tx) => if t.holder == None then t.(holder := Some(tx)) else t
    case Insert(tx) =>
      if tx in t.drafts || (locking && t.holder != Some(tx)) then t
      else t.(drafts := t.drafts[tx := LeaseCode(MaxLeaseNumber(t.codes) + 1)])
    case Commit(tx) =>
      if tx !in t.drafts then Release(t, tx)
      else if t.drafts[tx] in t.codes then Release(t, tx) // the unique index refuses the row
      else Release(t, tx).(codes := t.codes + [t.drafts[tx]])
    case Rollback(tx) => Release(t, tx)
  }

  function TxRun(t: LeaseTable, steps: seq<TxStep>, locking: bool): LeaseTable {
    if steps == [] then t
    else TxNext(TxRun(t, steps[..|steps| - 1], locking), steps[|steps| - 1], locking)
  }

  /** The codes of `count` consecutive leases after number `base`. */
  function Consecutive(base: nat, count: nat): seq<string> {
    seq(count, i requires 0 <= i < count => LeaseCode(base + 1 + i))
  }

  lemma {:induction false} MaxOfConsecutive(codes: seq<string>, count: nat)
    ensures MaxLeaseNumber(codes + Consecutive(MaxLeaseNumber(codes), count))
         == MaxLeaseNumber(codes) + count
  {
    hide LeaseCode, LeaseNumber;
    var base := MaxLeaseNumber(codes);
    if count == 0 {
      assert codes + Consecutive(base, 0) == codes;
    } else {
      MaxOfConsecutive(codes, count - 1);
      var all := codes + Consecutive(base, count);
      assert all[..|all| - 1] == codes + Consecutive(base, count - 1);
      LeaseNumberOfCode(base + count);
    }
  }

  lemma {:induction false} NumberBoundedByMax(codes: seq<string>, code: string)
    requires code in codes
    ensures LeaseNumber(code).Some? ==> LeaseNumber(code).value <= MaxLeaseNumber(codes)
  {
    if code != codes[|codes| - 1] {
      NumberBoundedByMax(codes[..|codes| - 1], code);
    }
  }

  /** What every step of every interleaving keeps: the committed codes extend the starting
      table by consecutive numbers, and only the lock holder has a row in flight, already
      carrying the next number. */
  ghost predicate Allocating(codes: seq<string>, t: LeaseTable) {
    && |codes| <= |t.codes|
    && t.codes == codes + Consecutive(MaxLeaseNumber(codes), |t.codes| - |codes|)
    && forall tx | tx in t.drafts ::
         && t.holder == Some(tx)
         && t.drafts[tx] == LeaseCode(MaxLeaseNumber(codes) + 1 + |t.codes| - |codes|)
  }

  lemma TxNextKeepsAllocating(codes: seq<string>, t: LeaseTable, step: TxStep)
    requires Allocating(codes, t)
    ensures Allocating(codes, TxNext(t, step, true))
    ensures |t.codes| <= |TxNext(t, step, true).codes|
  {
    hide LeaseCode, LeaseNumber, MaxLeaseNumber;
    var base := MaxLeaseNumber(codes);
    var n := |t.codes| - |codes|;
    MaxOfConsecutive(codes, n);
    if step.Commit? && step.tx in t.drafts {
      LeaseNumberOfCode(base + 1 + n);
      if t.drafts[step.tx] in t.codes {
        NumberBoundedByMax(t.codes, t.drafts[step.tx]);
      }
      assert Consecutive(base, n) + [LeaseCode(base + 1 + n)] == Consecutive(base, n + 1);
    }
  }

  /** Under every interleaving of lease transactions, committing or rolling back in any
      order, the committed codes continue the table's own sequence without gap or repeat. */
  lemma {:induction false} LeaseCodesAreGapFree(codes: seq<string>, steps: seq<TxStep>)
    ensures Allocating(codes, TxRun(LeaseTable(codes, None, map[]), steps, true))
    ensures var end := TxRun(LeaseTable(codes, None, map[]), steps, true).codes;
            forall i, j | |codes| <= i < j < |end| :: end[i] != end[j]
  {
    hide LeaseCode, LeaseNumber, MaxLeaseNumber, TxNext;
    var t := LeaseTable(codes, None, map[]);
    if steps == [] {
      assert codes == codes + Consecutive(MaxLeaseNumber(codes), 0);
    } else {
      LeaseCodesAreGapFree(codes, steps[..|steps| - 1]);
      TxNextKeepsAllocating(codes, TxRun(t, steps[..|steps| - 1], true), steps[|steps| - 1]);
    }
    var end := TxRun(t, steps, true).codes;
    forall i, j | |codes| <= i < j < |end|
      ensures end[i] != end[j]
    {
      LeaseNumberOfCode(MaxLeaseNumber(codes) + 1 + i - |codes|);
      LeaseNumberOfCode(MaxLeaseNumber(codes) + 1 + j - |codes|);
    }
  }

  /** Whoever holds the lock gives it back by committing or rolling back, and a transaction that
      finds it free and runs through adds the next code: allocation never gets stuck. */
  lemma TransactionsProgress(codes: seq<string>, t: LeaseTable, tx: nat)
    requires Allocating(codes, t)
    ensures t.holder == Some(tx) ==> TxNext(t, Commit(tx), true).holder == TxNext(t, Rollback(tx), true).holder == None
    ensures TxNext(t, Rollback(tx), true).codes == t.codes && tx !in TxNext(t, Rollback(tx), true).drafts
    ensures t.holder == None ==>
      TxNext(TxNext(TxNext(t, Lock(tx), true), Insert(tx), true), Commit(tx), true)
      == LeaseTable(t.codes + [LeaseCode(MaxLeaseNumber(codes) + 1 + |t.codes| - |codes|)], None, t.drafts)
  {
    if t.holder == None {
      NextCode(codes, t);
      assert tx !in t.drafts;
      hide LeaseCode, MaxLeaseNumber, Allocating;
      FreeTransaction(t, tx);
    }
  }

  lemma NextCode(codes: seq<string>, t: LeaseTable)
    requires Allocating(codes, t)
    ensures LeaseCode(MaxLeaseNumber(t.codes) + 1) == LeaseCode(MaxLeaseNumber(codes) + 1 + |t.codes| - |codes|)
    ensures LeaseCode(MaxLeaseNumber(t.codes) + 1) !in t.codes
  {
    hide LeaseCode, LeaseNumber, MaxLeaseNumber;
    MaxOfConsecutive(codes, |t.codes| - |codes|);
    var n := MaxLeaseNumber(t.codes) + 1;
    LeaseNumberOfCode(n);
    if LeaseCode(n) in t.codes {
      NumberBoundedByMax(t.codes, LeaseCode(n));
    }
  }

  lemma FreeTransaction(t: LeaseTable, tx: nat)
    requires t.holder == None && tx !in t.drafts && LeaseCode(MaxLeaseNumber(t.codes) + 1) !in t.codes
    ensures TxNext(TxNext(TxNext(t, Lock(tx), true), Insert(tx), true), Commit(tx), true)
         == LeaseTable(t.codes + [LeaseCode(MaxLeaseNumber(t.codes) + 1)], None, t.drafts)
  {
    hide LeaseCode, MaxLeaseNumber;
    var code := LeaseCode(MaxLeaseNumber(t.codes) + 1);
    assert TxNext(TxNext(t, Lock(tx), true), Insert(tx), true) == LeaseTable(t.codes, Some(tx), t.drafts[tx := code]);
    assert t.drafts[tx := code] - {tx} == t.drafts;
  }

  /** A committed code that was not there before is also new to the starting table. */
  lemma NewLeaseCodesAreFresh(codes: seq<string>, steps: seq<TxStep>, i: nat)
    requires |codes| <= i < |TxRun(LeaseTable(codes, None, map[]), steps, true).codes|
    ensures TxRun(LeaseTable(codes, None, map[]), steps, true).codes[i] !in codes
  {
    LeaseCodesAreGapFree(codes, steps);
    var n := MaxLeaseNumber(codes) + 1 + i - |codes|;
    LeaseNumberOfCode(n);
    if LeaseCode(n) in codes {
      NumberBoundedByMax(codes, LeaseCode(n));
    }
  }

  /** Without the table lock the same two transactions draw the same code, and the second
      one is lost to the unique index. */
  lemma LockIsNeeded()
    ensures var t := TxRun(LeaseTable([], None, map[]), [Insert(0), Insert(1)], false);
            && t.drafts == map[0 := LeaseCode(1), 1 := LeaseCode(1)]
            && TxNext(TxNext(t, Commit(0), false), Commit(1), false).codes == [LeaseCode(1)]
  {
    var t0 := LeaseTable([], None, map[]);
    assert [Insert(0), Insert(1)][..1] == [Insert(0)];
    assert [Insert(0)][..0] == [];
    assert TxRun(t0, [], false) == t0;
    assert TxRun(t0, [Insert(0)], false) == TxNext(t0, Insert(0), false);
  }

  // ---- invoice and receipt numbers: MAX below 5000, plus one ---------------------------

  const CAP: nat := 5000
  const FIRST: nat := 1014

  /** `MAX(...) WHERE number < 5000`. */
  function MaxBelowCap(numbers: seq<nat>): (max: Option<nat>)
    ensures max.Some? ==> max.value < CAP && max.value in numbers
  {
    if numbers == [] then None
    else
      var rest := MaxBelowCap(numbers[..|numbers| - 1]);
      var n := numbers[|numbers| - 1];
      if n >= CAP then rest
      else if rest == None || n > rest.value then Some(n)
      else rest
  }

  /** `COALESCE(MAX(...), 1014)`. */
  function CappedMax(numbers: seq<nat>): (max: nat)
    ensures max < CAP
  {
    match MaxBelowCap(numbers) case None => FIRST case Some(n) => n
  }

  /** Draws the next number; the unique index on `code` refuses one already in the table. */
  function Allocate(numbers: seq<nat>): Result<nat> {
    var next := CappedMax(numbers) + 1;
    if next in numbers then Err(UniqueViolation) else Ok(next)
  }

  /** The table after `n` attempts to insert a row, failed attempts adding nothing. */
  function Attempts(numbers: seq<nat>, n: nat): seq<nat> {
    if n == 0 then numbers
    else
      var before := Attempts(numbers, n - 1);
      match Allocate(before) case Ok(k) => before + [k] case Err(_) => before
  }

  function Following(base: nat, count: nat): seq<nat> {
    seq(count, i requires 0 <= i < count => base + 1 + i)
  }

  lemma {:induction false} CappedMaxBounds(numbers: seq<nat>)
    ensures forall n | n in numbers && n < CAP :: MaxBelowCap(numbers).Some? && n <= CappedMax(numbers)
  {
    if numbers != [] {
      var front := numbers[..|numbers| - 1];
      CappedMaxBounds(front);
      forall n | n in numbers && n < CAP
        ensures MaxBelowCap(numbers).Some? && n <= CappedMax(numbers)
      {
        if n != numbers[|numbers| - 1] {
          assert n in front;
        }
      }
    }
  }

  lemma {:induction false} CappedMaxOfFollowing(numbers: seq<nat>, count: nat)
    requires CappedMax(numbers) + count <= CAP
    ensures CappedMax(numbers + Following(CappedMax(numbers), count))
         == if CappedMax(numbers) + count < CAP then CappedMax(numbers) + count else CAP - 1
  {
    var base := CappedMax(numbers);
    CappedMaxBounds(numbers);
    if count == 0 {
      assert numbers + Following(base, 0) == numbers;
    } else {
      CappedMaxOfFollowing(numbers, count - 1);
      var all := numbers + Following(base, count);
      assert all[..|all| - 1] == numbers + Following(base, count - 1);
    }
  }

  /** The exact life of the sequence: from a table whose largest number below the cap is
      `base` (and that does not hold 5000 itself) exactly `5000 - base` attempts succeed,
      in order, each with a number not in the table, and every later attempt fails. */
  lemma {:induction false} CappedSequence(numbers: seq<nat>, n: nat)
    requires CAP !in numbers
    ensures var base := CappedMax(numbers);
            Attempts(numbers, n) == numbers + Following(base, if n <= CAP - base then n else CAP - base)
    ensures Allocate(Attempts(numbers, n)) ==
            if n < CAP - CappedMax(numbers) then Ok(CappedMax(numbers) + 1 + n) else Err(UniqueViolation)
  {
    hide Allocate, CappedMax, Following;
    var base := CappedMax(numbers);
    FollowingGrows(numbers, base, n);
    if n > 0 {
      CappedSequence(numbers, n - 1);
    }
    NextAfterFollowing(numbers, if n <= CAP - base then n else CAP - base);
  }

  lemma FollowingGrows(numbers: seq<nat>, base: nat, n: nat)
    ensures numbers + Following(base, 0) == numbers
    ensures n > 0 ==> numbers + Following(base, n - 1) + [base + n] == numbers + Following(base, n)
  {
  }

  lemma NextAfterFollowing(numbers: seq<nat>, made: nat)
    requires CAP !in numbers && made <= CAP - CappedMax(numbers)
    ensures Allocate(numbers + Following(CappedMax(numbers), made)) ==
            if made < CAP - CappedMax(numbers) then Ok(CappedMax(numbers) + 1 + made) else Err(UniqueViolation)
  {
    var base := CappedMax(numbers);
    CappedMaxBounds(numbers);
    CappedMaxOfFollowing(numbers, made);
    var all := numbers + Following(base, made);
    if made == CAP - base {
      assert all[|all| - 1] == CAP;
    }
  }

  const SEEDED_INVOICES: seq<nat> := [1009, 1010, 1011, 1012, 1013, 1014, 1007, 9001]
  const SEEDED_RECEIPTS: seq<nat> := [1009, 1011, 1013, 1007, 9001]

  /** Invoice numbers over the seeded table or an empty one: 1015 up to 5000 in order, 3986 of
      them, then nothing but refusals. The legacy 9001 never counts. */
  lemma InvoiceSequence(numbers: seq<nat>, n: nat)
    requires numbers == [] || numbers == SEEDED_INVOICES
    ensures Attempts(numbers, n) == numbers + Following(1014, if n <= 3986 then n else 3986)
    ensures Allocate(Attempts(numbers, n)) == if n < 3986 then Ok(1015 + n) else Err(UniqueViolation)
  {
    hide Allocate, Attempts, Following, CappedMax;
    NoNumbers();
    if numbers != [] {
      MaxOfTable(numbers, 5);
    }
    CappedSequence(numbers, n);
  }

  /** Receipt numbers over the seeded table, whose largest below the cap is 1013: 1014 up to 5000
      in order, 3987 of them; over an empty table they start at 1015 as invoices do. */
  lemma ReceiptSequence(numbers: seq<nat>, n: nat)
    requires numbers == [] || numbers == SEEDED_RECEIPTS
    ensures var base := if numbers == [] then 1014 else 1013;
            && Attempts(numbers, n) == numbers + Following(base, if n <= 5000 - base then n else 5000 - base)
            && Allocate(Attempts(numbers, n)) == if n < 5000 - base then Ok(base + 1 + n) else Err(UniqueViolation)
  {
    hide Allocate, Attempts, Following, CappedMax;
    NoNumbers();
    if numbers != [] {
      MaxOfTable(numbers, 2);
    }
    CappedSequence(numbers, n);
  }

  lemma NoNumbers()
    ensures CappedMax([]) == FIRST
  {
  }

  lemma MaxOfTable(numbers: seq<nat>, i: nat)
    requires i < |numbers| && numbers[i] < CAP && CAP !in numbers
    requires forall n | n in numbers && n < CAP :: n <= numbers[i]
    ensures CappedMax(numbers) == numbers[i]
  {
    CappedMaxBounds(numbers);
    assert numbers[i] in numbers;
    assert CappedMax(numbers) in numbers;
  }

  // ---- unit codes: property number followed by the row count --------------------------

  /** `U-${propertyNumber}${String(seq).padStart(2, '0')}`. */
  function UnitCode(property: nat, seqNo: nat): string {
    "U-" + Decimal(property) + Padded(seqNo)
  }

  /** The printed digits of a unit code, read as one number. */
  function UnitDigits(property: nat, seqNo: nat): nat {
    property * Pow10(|Padded(seqNo)|) + seqNo
  }

  lemma UnitCodeValue(property: nat, seqNo: nat)
    ensures ParseInteger(UnitCode(property, seqNo)[2..]) == Some(UnitDigits(property, seqNo))
    ensures |UnitCode(property, seqNo)| == 2 + |Decimal(property)| + |Padded(seqNo)|
  {
    hide Decimal, Padded, Value;
    DecimalDigits(property);
    PaddedRoundTrip(seqNo);
    assert UnitCode(property, seqNo)[2..] == Decimal(property) + Padded(seqNo);
    ValueConcat(Decimal(property), Padded(seqNo));
  }

  lemma PaddedWidth(n: nat)
    ensures n < 100 ==> |Padded(n)| == 2
    ensures 100 <= n < 1000 ==> |Padded(n)| == 3
  {
    DecimalWidth(n);
    DecimalDigits(n);
    PaddedShape(n);
  }

  /** Inside one property the code determines the sequence number, at any size. */
  lemma UnitCodesDistinctInProperty(property: nat, m: nat, n: nat)
    requires UnitCode(property, m) == UnitCode(property, n)
    ensures m == n
  {
    var head := "U-" + Decimal(property);
    assert UnitCode(property, m) == head + Padded(m);
    assert UnitCode(property, n) == head + Padded(n);
    assert (head + Padded(m))[|head|..] == Padded(m);
    assert (head + Padded(n))[|head|..] == Padded(n);
    PaddedInjective(m, n);
  }

  lemma UnitCodesDistinctUpTo100(p: nat, m: nat, q: nat, n: nat)
    requires 1 <= m <= 100 && 1 <= n <= 100
    requires UnitCode(p, m) == UnitCode(q, n)
    ensures p == q && m == n
  {
    hide UnitCode, Padded, ParseInteger;
    UnitCodeValue(p, m);
    UnitCodeValue(q, n);
    PaddedWidth(m);
    PaddedWidth(n);
    assert Pow10(2) == 100 && Pow10(3) == 1000 by {
      assert Pow10(1) == 10;
    }
    assert UnitDigits(p, m) == UnitDigits(q, n);
    assert UnitDigits(p, m) == if m < 100 then p * 100 + m else p * 1000 + m;
    assert UnitDigits(q, n) == if n < 100 then q * 100 + n else q * 1000 + n;
  }

  /** The 101st unit of property p prints like the first unit of property 10p + 1. */
  lemma UnitCodesCollideAt101(p: nat)
    requires p >= 1
    ensures UnitCode(p, 101) == UnitCode(10 * p + 1, 1)
    ensures p != 10 * p + 1
  {
    assert Decimal(10 * p + 1) == Decimal(p) + [Digit(1)] by {
      assert (10 * p + 1) / 10 == p && (10 * p + 1) % 10 == 1;
    }
    assert Decimal(10) == Decimal(1) + [Digit(0)];
    assert Decimal(101) == Decimal(10) + [Digit(1)];
    assert Padded(101) == [Digit(1), Digit(0), Digit(1)];
    assert Padded(1) == "0" + [Digit(1)];
    assert Digit(0) == '0';
  }

  // ---- the units table ----------------------------------------------------------------------

  datatype UnitRow = UnitRow(property: nat, no: string, code: string)

  /** `COUNT(*)` of a property's units. */
  function CountIn(rows: seq<UnitRow>, property: nat): nat {
    if rows == [] then 0
    else CountIn(rows[..|rows| - 1], property) + if rows[|rows| - 1].property == property then 1 else 0
  }

  /** Adds a unit under the code its count gives; a door label repeated inside the property is refused. */
  function CreateUnit(rows: seq<UnitRow>, property: nat, no: string): Result<seq<UnitRow>> {
    if exists i :: 0 <= i < |rows| && rows[i].property == property && rows[i].no == no then Err(Conflict("unit exists"))
    else Ok(rows + [UnitRow(property, no, UnitCode(property, CountIn(rows, property) + 1))])
  }

  /** The units table, as `create` fills it. */
  class UnitsService {
    var rows: seq<UnitRow>

    constructor ()
      ensures rows == []
    {
      rows := [];
    }

    method Create(property: nat, no: string) returns (r: Result<string>)
      modifies this
      ensures match CreateUnit(old(rows), property, no)
              case Ok(after) => rows == after && r == Ok(rows[|rows| - 1].code)
              case Err(e) => rows == old(rows) && r == Err(e)
    {
      var seqNo := CountIn(rows, property) + 1;
      var code := UnitCode(property, seqNo);
      if exists i :: 0 <= i < |rows| && rows[i].property == property && rows[i].no == no {
        return Err(Conflict("unit exists"));
      }
      rows := rows + [UnitRow(property, no, code)];
      r := Ok(code);
    }
  }

  /** A unit is added exactly when its property has no unit of that label; the row goes to the end. */
  lemma CreationOutcome(rows: seq<UnitRow>, property: nat, no: string)
    ensures CreateUnit(rows, property, no).Ok? <==> forall row | row in rows :: row.property != property || row.no != no
    ensures CreateUnit(rows, property, no).Ok? ==>
      var after := CreateUnit(rows, property, no).value;
      && |after| == |rows| + 1 && after[..|rows|] == rows
      && after[|rows|].property == property && after[|rows|].no == no
      && after[|rows|].code == UnitCode(property, |set i | 0 <= i < |rows| && rows[i].property == property| + 1)
  {
    hide UnitCode;
    CountIsCardinality(rows, property);
    if i :| 0 <= i < |rows| && rows[i].property == property && rows[i].no == no {
      assert rows[i] in rows;
    }
  }

  lemma {:induction false} CountIsCardinality(rows: seq<UnitRow>, property: nat)
    ensures CountIn(rows, property) == |set i | 0 <= i < |rows| && rows[i].property == property|
  {
    var all := set i | 0 <= i < |rows| && rows[i].property == property;
    if rows != [] {
      var n := |rows| - 1;
      CountIsCardinality(rows[..n], property);
      var front := set i | 0 <= i < |rows[..n]| && rows[..n][i].property == property;
      assert all == front + if rows[n].property == property then {n} else {};
    }
  }

  datatype UnitRequest = UnitRequest(property: nat, no: string)

  function CreateUnits(rows: seq<UnitRow>, requests: seq<UnitRequest>): seq<UnitRow> {
    if requests == [] then rows
    else
      var before := CreateUnits(rows, requests[..|requests| - 1]);
      var last := requests[|requests| - 1];
      match CreateUnit(before, last.property, last.no) case Ok(after) => after case Err(_) => before
  }

  /** Each row's code carries its position among its property's rows. */
  ghost predicate Positioned(rows: seq<UnitRow>) {
    forall i | 0 <= i < |rows| :: rows[i].code == UnitCode(rows[i].property, CountIn(rows[..i], rows[i].property) + 1)
  }

  lemma {:induction false} CreationsStayPositioned(start: seq<UnitRow>, requests: seq<UnitRequest>)
    requires Positioned(start)
    ensures Positioned(CreateUnits(start, requests))
  {
    hide UnitCode, CountIn, Positioned;
    if requests != [] {
      CreationsStayPositioned(start, requests[..|requests| - 1]);
      var last := requests[|requests| - 1];
      AppendPositioned(CreateUnits(start, requests[..|requests| - 1]), last.property, last.no);
    }
  }

  lemma AppendPositioned(rows: seq<UnitRow>, property: nat, no: string)
    requires Positioned(rows)
    ensures Positioned(rows + [UnitRow(property, no, UnitCode(property, CountIn(rows, property) + 1))])
  {
    hide UnitCode, CountIn;
    var row := UnitRow(property, no, UnitCode(property, CountIn(rows, property) + 1));
    forall i | 0 <= i < |rows| + 1
      ensures (rows + [row])[i].code == UnitCode((rows + [row])[i].property, CountIn((rows + [row])[..i], (rows + [row])[i].property) + 1)
    {
      if i < |rows| {
        assert (rows + [row])[..i] == rows[..i];
      } else {
        assert (rows + [row])[..i] == rows;
      }
    }
  }

  lemma {:induction false} CountGrows(rows: seq<UnitRow>, i: nat, j: nat, property: nat)
    requires i <= j <= |rows|
    ensures CountIn(rows[..i], property) <= CountIn(rows[..j], property)
    ensures i < j && rows[i].property == property ==> CountIn(rows[..i], property) < CountIn(rows[..j], property)
    decreases j
  {
    if i < j {
      assert rows[..j][..j - 1] == rows[..j - 1];
      CountGrows(rows, i, j - 1, property);
    }
  }

  /** In every run of creations no code repeats inside a property, and none repeats at all while
      no property has more than 100 units. */
  lemma UnitCodesOfRuns(start: seq<UnitRow>, requests: seq<UnitRequest>, i: nat, j: nat)
    requires Positioned(start) && i < j < |CreateUnits(start, requests)|
    ensures var rows := CreateUnits(start, requests);
            rows[i].property == rows[j].property
            || (CountIn(rows, rows[i].property) <= 100 && CountIn(rows, rows[j].property) <= 100)
            ==> rows[i].code != rows[j].code
  {
    var rows := CreateUnits(start, requests);
    CreationsStayPositioned(start, requests);
    hide UnitCode, CreateUnits;
    var p, q := rows[i].property, rows[j].property;
    var m, n := CountIn(rows[..i], p) + 1, CountIn(rows[..j], q) + 1;
    assert rows[..|rows|] == rows;
    CountGrows(rows, i, |rows|, p);
    CountGrows(rows, j, |rows|, q);
    if rows[i].code == rows[j].code {
      if p == q {
        CountGrows(rows, i, j, p);
        UnitCodesDistinctInProperty(p, m, n);
      } else if CountIn(rows, p) <= 100 && CountIn(rows, q) <= 100 {
        UnitCodesDistinctUpTo100(p, m, q, n);
      }
    }
  }

  lemma CodeAt(rows: seq<UnitRow>, i: nat)
    requires Positioned(rows) && i < |rows|
    ensures rows[i].code == UnitCode(rows[i].property, CountIn(rows[..i], rows[i].property) + 1)
  {
    hide UnitCode, CountIn;
  }

  /** The row that is its property's `n`-th. */
  lemma {:induction false} NthOfProperty(rows: seq<UnitRow>, property: nat, n: nat) returns (i: nat)
    requires n < CountIn(rows, property)
    ensures i < |rows| && rows[i].property == property && CountIn(rows[..i], property) == n
  {
    var last := |rows| - 1;
    if n == CountIn(rows[..last], property) {
      i := last;
    } else {
      i := NthOfProperty(rows[..last], property, n);
      assert rows[..last][..i] == rows[..i];
    }
  }

  /** Every run that gives property p its 101st unit and property 10p + 1 its first repeats a code:
      the unique index covers door labels, not codes. */
  lemma UnitCodesCollideInRuns(start: seq<UnitRow>, requests: seq<UnitRequest>, p: nat) returns (i: nat, j: nat)
    requires Positioned(start) && p >= 1
    requires CountIn(CreateUnits(start, requests), p) > 100 && CountIn(CreateUnits(start, requests), 10 * p + 1) > 0
    ensures var rows := CreateUnits(start, requests);
            && i < |rows| && j < |rows| && rows[i].property == p && rows[j].property == 10 * p + 1
            && rows[i].code == rows[j].code
  {
    hide UnitCode, CreateUnits, Positioned, CountIn;
    CreationsStayPositioned(start, requests);
    var rows := CreateUnits(start, requests);
    i := NthOfProperty(rows, p, 100);
    j := NthOfProperty(rows, 10 * p + 1, 0);
    CodeAt(rows, i);
    CodeAt(rows, j);
    UnitCodesCollideAt101(p);
  }

  function Label(k: nat): string {
    seq(k, _ => 'x')
  }

  function Requests(p: nat, n: nat): seq<UnitRequest> {
    seq(n, k requires 0 <= k < n => UnitRequest(p, Label(k)))
  }

  lemma {:induction false} LabelledUnits(p: nat, n: nat)
    ensures var rows := CreateUnits([], Requests(p, n));
            CountIn(rows, p) == n && forall row | row in rows :: row.property == p && |row.no| < n
  {
    if n > 0 {
      LabelledUnits(p, n - 1);
      assert Requests(p, n)[..n - 1] == Requests(p, n - 1);
      OneMoreUnit(CreateUnits([], Requests(p, n - 1)), p, Label(n - 1));
    }
  }

  lemma OneMoreUnit(rows: seq<UnitRow>, property: nat, no: string)
    requires forall row | row in rows :: row.property != property || |row.no| < |no|
    ensures CreateUnit(rows, property, no).Ok?
    ensures var after := CreateUnit(rows, property, no).value;
            && (forall row | row in after :: row in rows || (row.property == property && row.no == no))
            && forall q :: CountIn(after, q) == CountIn(rows, q) + if q == property then 1 else 0
  {
    hide UnitCode;
    var after := CreateUnit(rows, property, no).value;
    assert after[..|rows|] == rows;
  }

  /** Such a run exists for every property: 101 units there and one in the other. */
  lemma CollidingRun(p: nat)
    requires p >= 1
    ensures var rows := CreateUnits([], Requests(p, 101) + [UnitRequest(10 * p + 1, "")]);
            CountIn(rows, p) > 100 && CountIn(rows, 10 * p + 1) > 0
  {
    hide UnitCode, CountIn;
    var requests := Requests(p, 101) + [UnitRequest(10 * p + 1, "")];
    assert requests[..101] == Requests(p, 101);
    LabelledUnits(p, 101);
    OneMoreUnit(CreateUnits([], Requests(p, 101)), 10 * p + 1, "");
  }

  ghost predicate UnitCodesDistinct(limit: nat) {
    forall p: nat, m: nat, q: nat, n: nat |
      p >= 1 && q >= 1 && 1 <= m <= limit && 1 <= n <= limit && UnitCode(p, m) == UnitCode(q, n) ::
      p == q && m == n
  }

  /** The sharp bound: codes are distinct across properties exactly while no property may
      pass 100 units. */
  lemma UnitCodeLimit(limit: nat)
    ensures UnitCodesDistinct(limit) <==> limit <= 100
  {
    if limit <= 100 {
      forall p: nat, m: nat, q: nat, n: nat |
        p >= 1 && q >= 1 && 1 <= m <= limit && 1 <= n <= limit && UnitCode(p, m) == UnitCode(q, n)
        ensures p == q && m == n
      {
        UnitCodesDistinctUpTo100(p, m, q, n);
      }
    } else {
      UnitCodesCollideAt101(1);
      assert UnitCode(1, 101) == UnitCode(11, 1);
    }
  }
}
