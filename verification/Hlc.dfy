// Hybrid logical clocks and the message ids built from their readings.
module Hlc {
  import opened Order

  datatype Stamp = Stamp(l: nat, c: nat)

  // HLC.compare(a, b) < 0
  predicate Less(a: Stamp, b: Stamp) {
    if a.l != b.l then a.l < b.l else a.c < b.c
  }

  function AfterLocal(clock: Stamp, wall: nat): Stamp {
    if wall > clock.l then Stamp(wall, 0) else Stamp(clock.l, clock.c + 1)
  }

  function AfterRemote(clock: Stamp, remote: Stamp, wall: nat): Stamp {
    if remote.l > clock.l && remote.l > wall then Stamp(remote.l, remote.c + 1)
    else if wall > clock.l then Stamp(wall, 0)
    else if clock.l > remote.l then Stamp(clock.l, clock.c + 1)
    else Stamp(clock.l, (if clock.c > remote.c then clock.c else remote.c) + 1)
  }

  ghost predicate Largest(n: int, ns: set<nat>) {
    n in ns && forall m <- ns :: m <= n
  }

  // A local reading is the earliest stamp after the clock that is not behind the wall clock.
  lemma LocalIsEarliest(clock: Stamp, wall: nat)
    ensures
      var s := AfterLocal(clock, wall);
      Largest(s.l, {clock.l, wall}) && Less(clock, s)
      && forall t :: Less(clock, t) && wall <= t.l ==> !Less(t, s)
  {
  }

  // A merged reading stands at the largest of the three times. It is the earliest stamp there or
  // later that is after the clock and, the tie apart, after the remote stamp; its counter restarts
  // when the wall clock leads and otherwise is one more than the largest at that time.
  lemma RemoteIsEarliest(clock: Stamp, remote: Stamp, wall: nat)
    ensures
      var s := AfterRemote(clock, remote, wall);
      var tie := remote.l == wall > clock.l;
      && Largest(s.l, {clock.l, remote.l, wall})
      && (if wall > clock.l && wall >= remote.l then s.c == 0
          else Largest(s.c - 1, set x <- {clock, remote} | x.l == s.l :: x.c))
      && forall t :: Less(clock, t) && wall <= t.l && remote.l <= t.l && (tie || Less(remote, t)) ==> !Less(t, s)
  {
    var s := AfterRemote(clock, remote, wall);
    if !(wall > clock.l && wall >= remote.l) {
      assert s.c - 1 in set x <- {clock, remote} | x.l == s.l :: x.c;
    }
  }

  // Both kinds of reading advance the clock, whatever the wall clock says.
  lemma Advances(clock: Stamp, remote: Stamp, wall: nat)
    ensures Less(clock, AfterLocal(clock, wall)) && Less(clock, AfterRemote(clock, remote, wall))
  {
  }

  // The documented "strictly after `remote`" fails in exactly one case: the
  // remote reading ties a wall clock that is ahead of the local reading.
  lemma ReceiveAfterRemote(clock: Stamp, remote: Stamp, wall: nat)
    ensures Less(remote, AfterRemote(clock, remote, wall)) <==> !(remote.l == wall && wall > clock.l)
  {
  }

  lemma ReceiveNotAfterRemote()
    ensures AfterRemote(Stamp(0, 0), Stamp(5, 3), 5) == Stamp(5, 0) && Less(Stamp(5, 0), Stamp(5, 3))
  {
  }

  datatype Tick = Local(wall: nat) | Observed(remote: Stamp, wall: nat)

  function Read(clock: Stamp, tick: Tick): Stamp {
    match tick
    case Local(wall) => AfterLocal(clock, wall)
    case Observed(remote, wall) => AfterRemote(clock, remote, wall)
  }

  // The readings issued over a run of local events and received stamps.
  function Readings(clock: Stamp, ticks: seq<Tick>): seq<Stamp>
    decreases |ticks|
  {
    if ticks == [] then []
    else var next := Read(clock, ticks[0]); [next] + Readings(next, ticks[1..])
  }

  lemma {:induction false} ReadingsIncrease(clock: Stamp, ticks: seq<Tick>)
    ensures |Readings(clock, ticks)| == |ticks|
    ensures Sorted(Less, [clock] + Readings(clock, ticks))
    decreases |ticks|
  {
    if ticks != [] {
      var next := Read(clock, ticks[0]);
      var rest := Readings(next, ticks[1..]);
      ReadingsIncrease(next, ticks[1..]);
      forall x | x in [next] + rest ensures Less(clock, x) {
        var k :| 0 <= k < |[next] + rest| && ([next] + rest)[k] == x;
        assert k > 0 ==> Less(([next] + rest)[0], ([next] + rest)[k]);
      }
    }
  }

  // The times an event brings to the clock.
  function Times(tick: Tick): set<nat> {
    match tick
    case Local(wall) => {wall}
    case Observed(remote, wall) => {remote.l, wall}
  }

  function AllTimes(ticks: seq<Tick>): set<nat> {
    set tick <- ticks, t <- Times(tick) :: t
  }

  // Over a run each reading stands at the largest time the clock has met so far, never beyond.
  lemma {:induction false} ReadingsKeepTime(clock: Stamp, ticks: seq<Tick>, k: nat)
    requires k < |ticks|
    ensures |Readings(clock, ticks)| == |ticks|
    ensures Largest(Readings(clock, ticks)[k].l, {clock.l} + AllTimes(ticks[..k + 1]))
    decreases k
  {
    var next := Read(clock, ticks[0]);
    ReadingsIncrease(clock, ticks);
    ReadTime(clock, ticks[0]);
    if k == 0 {
      assert ticks[..1] == [ticks[0]];
      assert AllTimes([ticks[0]]) == Times(ticks[0]) by { assert ticks[0] in [ticks[0]]; }
    } else {
      ReadingsKeepTime(next, ticks[1..], k - 1);
      assert ticks[..k + 1] == [ticks[0]] + ticks[1..][..k];
      assert AllTimes(ticks[..k + 1]) == Times(ticks[0]) + AllTimes(ticks[1..][..k]);
    }
  }

  lemma ReadTime(clock: Stamp, tick: Tick)
    ensures Largest(Read(clock, tick).l, {clock.l} + Times(tick))
  {
    match tick
    case Local(wall) => LocalIsEarliest(clock, wall);
    case Observed(remote, wall) => RemoteIsEarliest(clock, remote, wall);
  }

  class HLC {
    var l: nat
    var c: nat

    ghost function Reading(): Stamp
      reads this
    {
      Stamp(l, c)
    }

    constructor (initialWall: nat)
      ensures Reading() == Stamp(initialWall, 0)
    {
      l, c := initialWall, 0;
    }

    method Now(wall: nat) returns (stamp: Stamp)
      modifies this
      ensures stamp == Reading() == AfterLocal(old(Reading()), wall)
      ensures Less(old(Reading()), stamp) && Largest(stamp.l, {old(l), wall})
    {
      if wall > l {
        l, c := wall, 0;
      } else {
        c := c + 1;
      }
      stamp := Stamp(l, c);
    }

    method Receive(remote: Stamp, wall: nat) returns (stamp: Stamp)
      modifies this
      ensures stamp == Reading() == AfterRemote(old(Reading()), remote, wall)
      ensures Less(old(Reading()), stamp) && Largest(stamp.l, {old(l), remote.l, wall})
    {
      if remote.l > l && remote.l > wall {
        l, c := remote.l, remote.c + 1;
      } else if wall > l {
        l, c := wall, 0;
      } else if l > remote.l {
        c := c + 1;
      } else {
        c := (if c > remote.c then c else remote.c) + 1;
      }
      stamp := Stamp(l, c);
    }
  }

  // -------------------------------------------------------------- message ids

  function Digit(d: nat): char
    requires d < 10
  {
    '0' + d as char
  }

  // String(n)
  function Decimal(n: nat): string {
    if n < 10 then [Digit(n)] else Decimal(n / 10) + [Digit(n % 10)]
  }

  function Zeros(k: nat): string {
    if k == 0 then "" else Zeros(k - 1) + ['0']
  }

  // s.padStart(width, "0")
  function PadStart(s: string, width: nat): string {
    if |s| >= width then s else Zeros(width - |s|) + s
  }

  const STAMP_WIDTH := 15
  const COUNTER_WIDTH := 6
  const SEQ_WIDTH := 12

  function MessageId(stamp: Stamp, region: string, localSeq: nat): string {
    PadStart(Decimal(stamp.l), STAMP_WIDTH)
    + (":" + (PadStart(Decimal(stamp.c), COUNTER_WIDTH)
    + (":" + region + ":" + PadStart(Decimal(localSeq), SEQ_WIDTH))))
  }

  function Pow10(k: nat): (n: nat)
    ensures n >= 1
  {
    if k == 0 then 1 else 10 * Pow10(k - 1)
  }

  // The numbers of a stamp fit their padding.
  predicate Fits(stamp: Stamp) {
    stamp.l < 1_000_000_000_000_000 && stamp.c < 1_000_000
  }

  lemma FieldWidths()
    ensures Pow10(STAMP_WIDTH) == 1_000_000_000_000_000 && Pow10(COUNTER_WIDTH) == 1_000_000
    ensures Pow10(SEQ_WIDTH) == 1_000_000_000_000
  {
    assert Pow10(6) == 1_000_000;
    assert Pow10(12) == 1_000_000 * Pow10(6);
    assert Pow10(15) == 1000 * Pow10(12);
  }

  // The last `width` decimal digits of n.
  function Digits(n: nat, width: nat): (s: string)
    ensures |s| == width
  {
    if width == 0 then "" else Digits(n / 10, width - 1) + [Digit(n % 10)]
  }

  lemma {:induction false} DigitsOfZero(width: nat)
    ensures Digits(0, width) == Zeros(width)
  {
    if width > 0 { DigitsOfZero(width - 1); }
  }

  lemma {:induction false} PaddedIsDigits(n: nat, width: nat)
    requires width > 0 && n < Pow10(width)
    ensures |Decimal(n)| <= width && PadStart(Decimal(n), width) == Digits(n, width)
    decreases width
  {
    if n < 10 {
      DigitsOfZero(width - 1);
    } else {
      assert Pow10(width) == 10 * Pow10(width - 1);
      PaddedIsDigits(n / 10, width - 1);
    }
  }

  lemma {:induction false} DigitsOrder(n: nat, m: nat, width: nat)
    requires n < m < Pow10(width)
    ensures Branches(CharLess, Digits(n, width), Digits(m, width))
  {
    var a, b := Digits(n / 10, width - 1), Digits(m / 10, width - 1);
    if n / 10 < m / 10 {
      DigitsOrder(n / 10, m / 10, width - 1);
      BranchesExtend(CharLess, a, b, [Digit(n % 10)], [Digit(m % 10)]);
    } else {
      assert (a + [Digit(n % 10)])[..width - 1] == a == (b + [Digit(m % 10)])[..width - 1];
      assert CharLess(Digit(n % 10), Digit(m % 10));
    }
  }

  // Ids sort as their stamps do, whatever the regions and sequence numbers, if the later stamp
  // fits in the field that tells the two apart.
  lemma IdOrder(a: Stamp, r: string, i: nat, b: Stamp, s: string, j: nat)
    requires Less(a, b) && if a.l < b.l then b.l < Pow10(STAMP_WIDTH) else b.c < Pow10(COUNTER_WIDTH)
    ensures StringLess(MessageId(a, r, i), MessageId(b, s, j))
  {
    hide Digits, Decimal, PadStart, Pow10, StringLess, Branches;
    var la, lb := PadStart(Decimal(a.l), STAMP_WIDTH), PadStart(Decimal(b.l), STAMP_WIDTH);
    var ca, cb := PadStart(Decimal(a.c), COUNTER_WIDTH), PadStart(Decimal(b.c), COUNTER_WIDTH);
    var ta, tb := ":" + r + ":" + PadStart(Decimal(i), SEQ_WIDTH), ":" + s + ":" + PadStart(Decimal(j), SEQ_WIDTH);
    if a.l < b.l {
      FieldOrder(a.l, b.l, STAMP_WIDTH);
      BranchesLess(la, lb, ":" + (ca + ta), ":" + (cb + tb));
    } else {
      FieldOrder(a.c, b.c, COUNTER_WIDTH);
      SecondField(la, ca, cb, ta, tb);
    }
  }

  lemma FieldOrder(n: nat, m: nat, width: nat)
    requires width > 0 && n < m < Pow10(width)
    ensures Branches(CharLess, PadStart(Decimal(n), width), PadStart(Decimal(m), width))
  {
    PaddedIsDigits(n, width);
    PaddedIsDigits(m, width);
    DigitsOrder(n, m, width);
  }

  // After a common first field, the second decides.
  lemma SecondField(first: string, p: string, q: string, x: string, y: string)
    requires Branches(CharLess, p, q)
    ensures StringLess(first + (":" + (p + x)), first + (":" + (q + y)))
  {
    BranchesAfter(":", p, q);
    BranchesAfter(first, ":" + p, ":" + q);
    hide Branches, StringLess;
    assert first + (":" + (p + x)) == (first + (":" + p)) + x && first + (":" + (q + y)) == (first + (":" + q)) + y;
    BranchesLess(first + (":" + p), first + (":" + q), x, y);
  }

  lemma BranchesLess(p: string, q: string, x: string, y: string)
    requires Branches(CharLess, p, q)
    ensures StringLess(p + x, q + y)
  {
    BranchesExtend(CharLess, p, q, x, y);
    LexCases(CharLess, p + x, q + y);
  }

  lemma BranchesAfter(prefix: string, p: string, q: string)
    requires Branches(CharLess, p, q)
    ensures Branches(CharLess, prefix + p, prefix + q)
  {
    var k :| 0 <= k < |p| && k < |q| && p[..k] == q[..k] && CharLess(p[k], q[k]);
    var n := |prefix| + k;
    assert (prefix + p)[..n] == prefix + p[..k] && (prefix + q)[..n] == prefix + q[..k];
    assert (prefix + p)[n] == p[k] && (prefix + q)[n] == q[k];
  }

  // --------------------------------------------------- ids are never reused

  predicate AllDigits(s: string) {
    forall k :: 0 <= k < |s| ==> '0' <= s[k] <= '9'
  }

  // Number(s)
  function Value(s: string): nat
    requires AllDigits(s)
  {
    if s == "" then 0 else 10 * Value(s[..|s| - 1]) + (s[|s| - 1] as nat - '0' as nat)
  }

  lemma {:induction false} DecimalValue(n: nat)
    ensures AllDigits(Decimal(n)) && Value(Decimal(n)) == n
  {
    if n >= 10 {
      DecimalValue(n / 10);
      assert Decimal(n)[..|Decimal(n)| - 1] == Decimal(n / 10);
    } else {
      assert Decimal(n)[..0] == "";
    }
  }

  lemma {:induction false} ZerosValue(k: nat)
    ensures AllDigits(Zeros(k)) && Value(Zeros(k)) == 0
  {
    if k > 0 {
      ZerosValue(k - 1);
      assert Zeros(k)[..|Zeros(k)| - 1] == Zeros(k - 1);
    }
  }

  lemma {:induction false} LeadingZeros(z: string, s: string)
    requires AllDigits(z) && Value(z) == 0 && AllDigits(s)
    ensures AllDigits(z + s) && Value(z + s) == Value(s)
    decreases |s|
  {
    if s == "" {
      assert z + s == z;
    } else {
      LeadingZeros(z, s[..|s| - 1]);
      assert (z + s)[..|z + s| - 1] == z + s[..|s| - 1];
    }
  }

  // A padded field is made of digits and tells its number, however long.
  lemma FieldValue(n: nat, width: nat)
    ensures AllDigits(PadStart(Decimal(n), width)) && Value(PadStart(Decimal(n), width)) == n
  {
    DecimalValue(n);
    var s := Decimal(n);
    if |s| < width {
      ZerosValue(width - |s|);
      LeadingZeros(Zeros(width - |s|), s);
    }
  }

  lemma SplitLeft(p: string, x: string, q: string, y: string)
    requires AllDigits(p) && AllDigits(q) && p + (":" + x) == q + (":" + y)
    ensures p == q && x == y
  {
    var s := p + (":" + x);
    assert s[|p|] == ':' && s[|q|] == ':';
    assert forall k :: 0 <= k < |p| ==> s[k] == p[k];
    assert forall k :: 0 <= k < |q| ==> s[k] == q[k];
    assert |p| == |q|;
    assert p == s[..|p|] && q == s[..|q|] && x == s[|p| + 1..] && y == s[|q| + 1..];
  }

  lemma SplitRight(x: string, p: string, y: string, q: string)
    requires AllDigits(p) && AllDigits(q) && x + (":" + p) == y + (":" + q)
    ensures p == q && x == y
  {
    var s := x + (":" + p);
    assert s[|x|] == ':' && s[|y|] == ':';
    assert forall k :: |x| < k < |s| ==> s[k] == p[k - |x| - 1];
    assert forall k :: |y| < k < |s| ==> s[k] == q[k - |y| - 1];
    assert |x| == |y|;
    assert x == s[..|x|] && y == s[..|y|] && p == s[|x| + 1..] && q == s[|y| + 1..];
  }

  // An id determines everything it was built from, past the field widths too.
  lemma IdInjective(a: Stamp, r: string, i: nat, b: Stamp, s: string, j: nat)
    requires MessageId(a, r, i) == MessageId(b, s, j)
    ensures a == b && r == s && i == j
  {
    hide Decimal, PadStart, Value, AllDigits;
    var la, lb := PadStart(Decimal(a.l), STAMP_WIDTH), PadStart(Decimal(b.l), STAMP_WIDTH);
    var ca, cb := PadStart(Decimal(a.c), COUNTER_WIDTH), PadStart(Decimal(b.c), COUNTER_WIDTH);
    var na, nb := PadStart(Decimal(i), SEQ_WIDTH), PadStart(Decimal(j), SEQ_WIDTH);
    FieldValue(a.l, STAMP_WIDTH);
    FieldValue(b.l, STAMP_WIDTH);
    FieldValue(a.c, COUNTER_WIDTH);
    FieldValue(b.c, COUNTER_WIDTH);
    FieldValue(i, SEQ_WIDTH);
    FieldValue(j, SEQ_WIDTH);
    SplitLeft(la, ca + (":" + r + ":" + na), lb, cb + (":" + s + ":" + nb));
    assert ":" + r + ":" + na == ":" + (r + (":" + na)) && ":" + s + ":" + nb == ":" + (s + (":" + nb));
    SplitLeft(ca, r + (":" + na), cb, s + (":" + nb));
    SplitRight(r, na, s, nb);
  }

  lemma FieldWidth(n: nat, width: nat)
    requires width > 0 && n < Pow10(width)
    ensures |PadStart(Decimal(n), width)| == width
  {
    PaddedIsDigits(n, width);
  }

  // An id is 15 digits of time, 6 of counter, the region and 12 digits of sequence, and each part
  // can be read back.
  lemma IdReadsBack(stamp: Stamp, region: string, localSeq: nat)
    requires Fits(stamp) && localSeq < 1_000_000_000_000
    ensures
      var id, n := MessageId(stamp, region, localSeq), |region|;
      |id| == 36 + n
      && AllDigits(id[..15]) && Value(id[..15]) == stamp.l && id[15] == ':'
      && AllDigits(id[16..22]) && Value(id[16..22]) == stamp.c && id[22] == ':'
      && id[23..23 + n] == region && id[23 + n] == ':'
      && AllDigits(id[24 + n..]) && Value(id[24 + n..]) == localSeq
  {
    FieldWidths();
    FieldWidth(stamp.l, STAMP_WIDTH);
    FieldWidth(stamp.c, COUNTER_WIDTH);
    FieldWidth(localSeq, SEQ_WIDTH);
    FieldValue(stamp.l, STAMP_WIDTH);
    FieldValue(stamp.c, COUNTER_WIDTH);
    FieldValue(localSeq, SEQ_WIDTH);
    hide Decimal, PadStart, AllDigits, Value, Pow10;
    var l, c, q := PadStart(Decimal(stamp.l), 15), PadStart(Decimal(stamp.c), 6), PadStart(Decimal(localSeq), 12);
    assert MessageId(stamp, region, localSeq) == l + (":" + (c + (":" + region + ":" + q)));
    hide MessageId;
    FieldsApart(l, c, region, q);
  }

  lemma FieldsApart(l: string, c: string, region: string, q: string)
    requires |l| == 15 && |c| == 6 && |q| == 12
    ensures
      var id, n := l + (":" + (c + (":" + region + ":" + q))), |region|;
      |id| == 36 + n && id[..15] == l && id[15] == ':' && id[16..22] == c && id[22] == ':'
      && id[23..23 + n] == region && id[23 + n] == ':' && id[24 + n..] == q
  {
  }

  lemma {:induction false} DecimalStartsWithDigit(n: nat)
    ensures Decimal(n) != [] && '0' <= Decimal(n)[0] <= '9'
  {
    if n >= 10 { DecimalStartsWithDigit(n / 10); }
  }

  lemma {:induction false} ZerosStart(k: nat)
    requires k > 0
    ensures Zeros(k) != [] && Zeros(k)[0] == '0'
  {
    if k > 1 { ZerosStart(k - 1); }
  }

  lemma IdStartsWithDigit(stamp: Stamp, region: string, localSeq: nat)
    ensures MessageId(stamp, region, localSeq) != []
    ensures '0' <= MessageId(stamp, region, localSeq)[0] <= '9'
  {
    var d := Decimal(stamp.l);
    DecimalStartsWithDigit(stamp.l);
    if |d| < STAMP_WIDTH { ZerosStart(STAMP_WIDTH - |d|); }
    assert MessageId(stamp, region, localSeq)[0] == PadStart(d, STAMP_WIDTH)[0];
  }

  // --------------------------------------------- exactly how far the order holds

  // Stamps up to the bounds give ids in their own order, whatever the regions and sequences.
  ghost predicate OrderHolds(maxL: nat, maxC: nat) {
    forall a, r, i, b, s, j ::
      Less(a, b) && a.l <= maxL && b.l <= maxL && a.c <= maxC && b.c <= maxC ==>
      StringLess(MessageId(a, r, i), MessageId(b, s, j))
  }

  // The first number too long for a field starts with a 1, its predecessor with a 9.
  lemma {:induction false} FirstDigits(k: nat)
    requires k > 0
    ensures |Decimal(Pow10(k))| == k + 1 && Decimal(Pow10(k))[0] == '1'
    ensures |Decimal(Pow10(k) - 1)| == k && Decimal(Pow10(k) - 1)[0] == '9'
  {
    if k == 1 {
      assert Pow10(1) == 10 * Pow10(0) == 10;
      assert Decimal(10) == Decimal(1) + [Digit(0)];
    } else {
      FirstDigits(k - 1);
      assert Pow10(k) == 10 * Pow10(k - 1) && Pow10(k - 1) >= 10;
      assert (Pow10(k) - 1) / 10 == Pow10(k - 1) - 1;
      assert Decimal(Pow10(k)) == Decimal(Pow10(k - 1)) + [Digit(0)];
      assert Decimal(Pow10(k) - 1) == Decimal(Pow10(k - 1) - 1) + [Digit(9)];
    }
  }

  // Past a field's width the order breaks: the longer number sorts before its predecessor.
  lemma OverflowBranches(k: nat)
    requires k > 0
    ensures Branches(CharLess, PadStart(Decimal(Pow10(k)), k), PadStart(Decimal(Pow10(k) - 1), k))
  {
    FirstDigits(k);
    var p, q := PadStart(Decimal(Pow10(k)), k), PadStart(Decimal(Pow10(k) - 1), k);
    assert p[..0] == q[..0] && CharLess(p[0], q[0]);
  }

  // A stamp counter that outgrows its field sorts before its predecessor, at every l.
  lemma CounterOverflowReorders(l: nat, r: string, i: nat, s: string, j: nat)
    ensures
      var a, b := Stamp(l, Pow10(COUNTER_WIDTH) - 1), Stamp(l, Pow10(COUNTER_WIDTH));
      Less(a, b) && StringLess(MessageId(b, s, j), MessageId(a, r, i))
  {
    hide PadStart, Decimal, StringLess, Branches, Pow10;
    OverflowBranches(COUNTER_WIDTH);
    var n := Pow10(COUNTER_WIDTH);
    SecondField(PadStart(Decimal(l), STAMP_WIDTH), PadStart(Decimal(n), COUNTER_WIDTH), PadStart(Decimal(n - 1), COUNTER_WIDTH),
      ":" + s + ":" + PadStart(Decimal(j), SEQ_WIDTH), ":" + r + ":" + PadStart(Decimal(i), SEQ_WIDTH));
  }

  lemma TimeOverflowReorders(c: nat, d: nat, r: string, i: nat, s: string, j: nat)
    ensures
      var a, b := Stamp(Pow10(STAMP_WIDTH) - 1, c), Stamp(Pow10(STAMP_WIDTH), d);
      Less(a, b) && StringLess(MessageId(b, s, j), MessageId(a, r, i))
  {
    hide PadStart, Decimal, StringLess, Branches, Pow10;
    OverflowBranches(STAMP_WIDTH);
    var n := Pow10(STAMP_WIDTH);
    var x := PadStart(Decimal(d), COUNTER_WIDTH) + (":" + s + ":" + PadStart(Decimal(j), SEQ_WIDTH));
    var y := PadStart(Decimal(c), COUNTER_WIDTH) + (":" + r + ":" + PadStart(Decimal(i), SEQ_WIDTH));
    BranchesLess(PadStart(Decimal(n), STAMP_WIDTH), PadStart(Decimal(n - 1), STAMP_WIDTH), ":" + x, ":" + y);
  }

  // Ids keep the order of stamps up to the bounds if and only if both bounds fit their fields.
  lemma OrderHoldsIff(maxL: nat, maxC: nat)
    ensures OrderHolds(maxL, maxC) <==> maxL < 1_000_000_000_000_000 && maxC < 1_000_000
  {
    FieldWidths();
    hide MessageId, Pow10, StringLess;
    if maxL < Pow10(STAMP_WIDTH) && maxC < Pow10(COUNTER_WIDTH) {
      forall a, r, i, b, s, j | Less(a, b) && a.l <= maxL && b.l <= maxL && a.c <= maxC && b.c <= maxC
        ensures StringLess(MessageId(a, r, i), MessageId(b, s, j)) {
        IdOrder(a, r, i, b, s, j);
      }
    } else {
      var n, m := Pow10(STAMP_WIDTH), Pow10(COUNTER_WIDTH);
      var a, b :=
        if maxC >= m then Stamp(0, m - 1) else Stamp(n - 1, 0),
        if maxC >= m then Stamp(0, m) else Stamp(n, 0);
      if maxC >= m { CounterOverflowReorders(0, "", 0, "", 0); } else { TimeOverflowReorders(0, 0, "", 0, "", 0); }
      NotBoth(MessageId(a, "", 0), MessageId(b, "", 0));
    }
  }

  lemma NotBoth(x: string, y: string)
    ensures !(StringLess(x, y) && StringLess(y, x))
  {
    StringOrder();
  }
}
