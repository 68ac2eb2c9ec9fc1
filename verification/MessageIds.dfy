/** Message ids, `${Date.now()}-${String(++seq).padStart(6, "0")}` in
    `client/data/mq.datastore.ts`: unique, and in the order of sending. */
module MessageIds {
  import opened KeyCodec

  const ZERO := 48
  const DASH: CodeUnit := 45

  predicate IsDigits(s: Str) {
    forall i :: 0 <= i < |s| ==> ZERO <= s[i] <= ZERO + 9
  }

  function Digits(n: nat): (s: Str)
    ensures s != [] && IsDigits(s)
  {
    if n < 10 then [ZERO + n] else Digits(n / 10) + [ZERO + n % 10]
  }

  /** `s.padStart(width, "0")`. */
  function PadStart(s: Str, width: nat): (r: Str)
    ensures IsDigits(s) ==> IsDigits(r)
    ensures |r| == if |s| < width then width else |s|
    decreases width - |s|
  {
    if |s| >= width then s else PadStart([ZERO] + s, width)
  }

  function SeqPart(seq_: nat): (s: Str)
    ensures IsDigits(s)
  {
    PadStart(Digits(seq_), 6)
  }

  function MessageId(now: nat, seq_: nat): Str {
    Digits(now) + [DASH] + SeqPart(seq_)
  }

  // ----- What a digit string says -----

  function Value(s: Str): nat
    requires IsDigits(s)
  {
    if s == [] then 0 else 10 * Value(s[..|s| - 1]) + (s[|s| - 1] - ZERO)
  }

  function Pow10(n: nat): (p: nat)
    ensures p > 0
  {
    if n == 0 then 1 else 10 * Pow10(n - 1)
  }

  lemma {:induction false} ValueOfDigits(n: nat)
    ensures Value(Digits(n)) == n
    decreases n
  {
    if n >= 10 {
      ValueOfDigits(n / 10);
      assert Digits(n)[..|Digits(n)| - 1] == Digits(n / 10);
    } else {
      assert Digits(n)[..0] == [];
    }
  }

  lemma {:induction false} ValueOfZeroes(s: Str)
    requires IsDigits(s)
    ensures Value([ZERO] + s) == Value(s)
    decreases |s|
  {
    var t := [ZERO] + s;
    if s != [] {
      assert t[..|t| - 1] == [ZERO] + s[..|s| - 1];
      ValueOfZeroes(s[..|s| - 1]);
    } else {
      assert t[..0] == [];
    }
  }

  lemma {:induction false} ValueOfPad(s: Str, width: nat)
    requires IsDigits(s)
    ensures Value(PadStart(s, width)) == Value(s)
    decreases width - |s|
  {
    if |s| < width {
      ValueOfZeroes(s);
      ValueOfPad([ZERO] + s, width);
    }
  }

  lemma ValueOfSeqPart(n: nat)
    ensures Value(SeqPart(n)) == n
  {
    ValueOfPad(Digits(n), 6);
    ValueOfDigits(n);
  }

  lemma {:induction false} ValueBound(s: Str)
    requires IsDigits(s)
    ensures Value(s) < Pow10(|s|)
    decreases |s|
  {
    if s != [] {
      ValueBound(s[..|s| - 1]);
    }
  }

  /** The first digit weighs most. */
  lemma TenTimes(d: int, p: int)
    ensures d * (10 * p) == 10 * (d * p)
  {
  }

  lemma {:induction false} ValueOfHead(s: Str)
    requires IsDigits(s) && s != []
    ensures Value(s) == (s[0] - ZERO) * Pow10(|s| - 1) + Value(s[1..])
    decreases |s|
  {
    var n := |s| - 1;
    if n > 0 {
      var init := s[..n];
      ValueOfHead(init);
      assert s[1..][..n - 1] == init[1..];
      TenTimes(s[0] - ZERO, Pow10(n - 1));
    } else {
      assert s[..0] == [] && s[1..] == [];
    }
  }

  /** Digit strings of one length come in the order of their values. */
  lemma {:induction false} SameLengthOrder(a: Str, b: Str)
    requires IsDigits(a) && IsDigits(b) && |a| == |b|
    ensures LexLe(a, b) <==> Value(a) <= Value(b)
    decreases |a|
  {
    if a != [] {
      ValueOfHead(a);
      ValueOfHead(b);
      ValueBound(a[1..]);
      ValueBound(b[1..]);
      var p := Pow10(|a| - 1);
      if a[0] == b[0] {
        SameLengthOrder(a[1..], b[1..]);
      } else if a[0] < b[0] {
        HeavierHead(a[0] - ZERO, b[0] - ZERO, p);
      } else {
        HeavierHead(b[0] - ZERO, a[0] - ZERO, p);
      }
    }
  }

  lemma HeavierHead(x: nat, y: nat, p: nat)
    requires x < y
    ensures x * p + p <= y * p
  {
    assert y * p == x * p + (y - x) * p;
    assert (y - x) * p >= p by {
      assert (y - x) * p == p + (y - x - 1) * p;
    }
  }

  /** The front of a longer digit string. */
  lemma {:induction false} ValueOfFront(b: Str, w: nat)
    requires IsDigits(b) && w <= |b|
    ensures Value(b[..w]) == Value(b) / Pow10(|b| - w)
    decreases |b|
  {
    if w == |b| {
      assert b[..w] == b;
    } else {
      var init := b[..|b| - 1];
      ValueOfFront(init, w);
      assert init[..w] == b[..w];
      var p := Pow10(|b| - 1 - w);
      DivideTwice(Value(init), b[|b| - 1] - ZERO, p);
    }
  }

  lemma DivideTwice(v: nat, d: nat, p: nat)
    requires d < 10 && p > 0
    ensures (10 * v + d) / (10 * p) == v / p
  {
    var q, r := v / p, v % p;
    assert v == p * q + r;
    assert 10 * v + d == (10 * p) * q + (10 * r + d);
    assert 10 * r + d < 10 * p;
    QuotientIs(10 * v + d, 10 * p, q, 10 * r + d);
  }

  lemma QuotientIs(n: nat, m: nat, q: nat, r: nat)
    requires m > 0 && n == m * q + r && r < m
    ensures n / m == q
  {
    var q', r' := n / m, n % m;
    assert n == q' * m + r' && n == q * m + r;
    if q' < q {
      HeavierHead(q', q, m);
    } else if q < q' {
      HeavierHead(q, q', m);
    }
  }

  // ----- Uniqueness -----

  lemma SplitAtDash(a: Str, x: Str, b: Str, y: Str)
    requires IsDigits(a) && IsDigits(b) && a + [DASH] + x == b + [DASH] + y
    ensures a == b && x == y
  {
    var s, t := a + [DASH] + x, b + [DASH] + y;
    assert s[|a|] == DASH && t[|b|] == DASH;
    assert forall k :: 0 <= k < |a| ==> s[k] == a[k] && s[k] != DASH;
    assert forall k :: 0 <= k < |b| ==> t[k] == b[k] && t[k] != DASH;
    assert |a| == |b|;
    assert s[..|a|] == a && t[..|a|] == b;
    assert s[|a| + 1..] == x && t[|a| + 1..] == y;
  }

  /** An instance never gives out an id twice: ids with different numbers differ. */
  lemma IdsAreUnique(now: nat, seq_: nat, now': nat, seq': nat)
    ensures MessageId(now, seq_) == MessageId(now', seq') <==> now == now' && seq_ == seq'
  {
    if MessageId(now, seq_) == MessageId(now', seq') {
      SplitAtDash(Digits(now), SeqPart(seq_), Digits(now'), SeqPart(seq'));
      ValueOfDigits(now);
      ValueOfDigits(now');
      ValueOfSeqPart(seq_);
      ValueOfSeqPart(seq');
    }
  }

  // ----- Order -----

  predicate LexLt(a: Str, b: Str) { LexLe(a, b) && a != b }

  lemma {:induction false} LexDiffer(a: Str, b: Str, x: Str, y: Str)
    requires |a| == |b| && a != b
    ensures LexLe(a + x, b + y) == LexLe(a, b)
    decreases |a|
  {
    assert (a + x)[0] == a[0] && (b + y)[0] == b[0];
    if a[0] == b[0] {
      assert (a + x)[1..] == a[1..] + x && (b + y)[1..] == b[1..] + y;
      assert a[1..] != b[1..] by {
        assert a == [a[0]] + a[1..] && b == [b[0]] + b[1..];
      }
      LexDiffer(a[1..], b[1..], x, y);
    }
  }

  lemma {:induction false} LexShorter(a: Str, b: Str)
    requires |a| <= |b|
    ensures LexLe(a, b) == LexLe(a, b[..|a|])
    decreases |a|
  {
    if a != [] {
      assert b[..|a|][1..] == b[1..][..|a| - 1];
      LexShorter(a[1..], b[1..]);
    }
  }

  /** In the same millisecond: the padded numbers, compared as strings. */
  lemma SeqPartOrder(seq_: nat, seq': nat)
    requires |SeqPart(seq_)| <= |SeqPart(seq')|
    ensures LexLe(SeqPart(seq_), SeqPart(seq')) <==>
      seq_ <= seq' / Pow10(|SeqPart(seq')| - |SeqPart(seq_)|)
  {
    var a, b := SeqPart(seq_), SeqPart(seq');
    LexShorter(a, b);
    SameLengthOrder(a, b[..|a|]);
    ValueOfFront(b, |a|);
    ValueOfSeqPart(seq_);
    ValueOfSeqPart(seq');
  }

  lemma {:induction false} DigitsLength(n: nat, k: nat)
    requires k > 0
    ensures |Digits(n)| <= k <==> n < Pow10(k)
    decreases n
  {
    if n >= 10 {
      if k == 1 {
        assert Pow10(1) == 10 * Pow10(0);
      } else {
        DigitsLength(n / 10, k - 1);
        assert n / 10 < Pow10(k - 1) <==> n < 10 * Pow10(k - 1);
      }
    } else {
      assert 10 <= Pow10(k);
    }
  }

  lemma {:induction false} DigitsMonotone(n: nat, m: nat)
    requires n <= m
    ensures |Digits(n)| <= |Digits(m)|
  {
    DigitsLength(m, |Digits(m)|);
    DigitsLength(n, |Digits(m)|);
  }

  /** The dash comes before every digit, so a shorter clock comes before all that extend it. */
  lemma DashFirst(a: Str, x: Str, digits: Str)
    requires digits != [] && digits[0] >= ZERO
    ensures LexLe(a + ([DASH] + x), a + digits) && LexLe(a, a)
  {
    LexCommonFront(a, [DASH] + x, digits);
    LexOrder(a, a, a);
  }

  lemma SplitFront(b: Str, w: nat, rest: Str)
    requires w <= |b|
    ensures b + rest == b[..w] + (b[w..] + rest)
    ensures w < |b| ==> (b[w..] + rest)[0] == b[w]
    ensures w == |b| ==> b[..w] == b
  {
  }

  lemma LexDash(a: Str, b: Str, x: Str, y: Str)
    requires IsDigits(b) && |a| <= |b| && a != b
    ensures LexLe(a + ([DASH] + x), b + ([DASH] + y)) == LexLe(a, b[..|a|])
  {
    hide LexLe;
    var front, rest := b[..|a|], b[|a|..] + ([DASH] + y);
    SplitFront(b, |a|, [DASH] + y);
    if a == front {
      DashFirst(a, x, rest);
    } else {
      LexDiffer(a, front, [DASH] + x, rest);
    }
  }

  /** The clocks, each cut to the digits of the shorter one. */
  predicate ClockBelow(now: nat, now': nat) {
    var w, w' := |Digits(now)|, |Digits(now')|;
    if w <= w' then now <= now' / Pow10(w' - w) else now / Pow10(w - w') < now'
  }

  lemma ShorterClock(now: nat, seq_: nat, now': nat, seq': nat)
    requires now != now' && |Digits(now)| <= |Digits(now')|
    ensures LexLe(MessageId(now, seq_), MessageId(now', seq')) <==>
      now <= now' / Pow10(|Digits(now')| - |Digits(now)|)
  {
    hide Digits, SeqPart, LexLe, Pow10;
    var a, b, x, y := Digits(now), Digits(now'), SeqPart(seq_), SeqPart(seq');
    ValueOfDigits(now);
    ValueOfDigits(now');
    LexDash(a, b, x, y);
    SameLengthOrder(a, b[..|a|]);
    ValueOfFront(b, |a|);
    assert a + ([DASH] + x) == a + [DASH] + x && b + ([DASH] + y) == b + [DASH] + y;
  }

  lemma OtherClock(now: nat, seq_: nat, now': nat, seq': nat)
    requires now != now'
    ensures LexLt(MessageId(now, seq_), MessageId(now', seq')) <==> ClockBelow(now, now')
  {
    hide Digits, LexLe, MessageId, Pow10;
    IdsAreUnique(now, seq_, now', seq');
    if |Digits(now)| <= |Digits(now')| {
      ShorterClock(now, seq_, now', seq');
    } else {
      ShorterClock(now', seq', now, seq_);
      LexOrder(MessageId(now, seq_), MessageId(now', seq'), []);
    }
  }

  lemma SameTick(now: nat, seq_: nat, seq': nat)
    requires |SeqPart(seq_)| <= |SeqPart(seq')|
    ensures LexLe(MessageId(now, seq_), MessageId(now, seq')) <==>
      seq_ <= seq' / Pow10(|SeqPart(seq')| - |SeqPart(seq_)|)
  {
    hide Digits, SeqPart, LexLe;
    LexCommonFront(Digits(now) + [DASH], SeqPart(seq_), SeqPart(seq'));
    SeqPartOrder(seq_, seq');
  }

  lemma SeqPartLength(seq_: nat, seq': nat)
    requires seq_ <= seq'
    ensures |SeqPart(seq_)| <= |SeqPart(seq')|
  {
    DigitsMonotone(seq_, seq');
  }

  /** The exact condition, for all clocks, under which a message sent later gets a later id: in
      one millisecond the earlier number is not above the front of the later one, otherwise the
      earlier clock is below the later one as a string. */
  lemma LaterIdIff(now: nat, seq_: nat, now': nat, seq': nat)
    requires seq_ < seq'
    ensures |SeqPart(seq_)| <= |SeqPart(seq')|
    ensures LexLt(MessageId(now, seq_), MessageId(now', seq')) <==>
      if now == now' then seq_ <= seq' / Pow10(|SeqPart(seq')| - |SeqPart(seq_)|)
      else ClockBelow(now, now')
  {
    hide Digits, SeqPart, LexLe, MessageId, Pow10, ClockBelow;
    SeqPartLength(seq_, seq');
    if now == now' {
      IdsAreUnique(now, seq_, now', seq');
      SameTick(now, seq_, seq');
    } else {
      OtherClock(now, seq_, now', seq');
    }
  }

  lemma SixDigits()
    ensures Pow10(0) == 1 && Pow10(1) == 10 && Pow10(6) == 1000000 && Pow10(7) == 10000000
  {
  }

  lemma SeqPartWidth(seq_: nat)
    ensures seq_ < 1000000 ==> |SeqPart(seq_)| == 6
    ensures 1000000 <= seq_ < 10000000 ==> |SeqPart(seq_)| == 7
  {
    hide Pow10, Digits;
    SixDigits();
    DigitsLength(seq_, 6);
    DigitsLength(seq_, 7);
  }

  /** Up to a million messages only the clock matters; id order is send order if it does not go
      back and keeps its number of digits, as it does until the year 2286. */
  lemma LaterIdUpToMillion(now: nat, seq_: nat, now': nat, seq': nat)
    requires seq_ < seq' <= 999999
    ensures LexLt(MessageId(now, seq_), MessageId(now', seq')) <==> now == now' || ClockBelow(now, now')
    ensures now <= now' && |Digits(now)| == |Digits(now')| ==> LexLt(MessageId(now, seq_), MessageId(now', seq'))
  {
    hide Pow10, Digits, SeqPart, LexLe, MessageId;
    SixDigits();
    SeqPartWidth(seq_);
    SeqPartWidth(seq');
    LaterIdIff(now, seq_, now', seq');
  }

  /** The next one breaks it: in the same millisecond message 1000000 comes before message
      999999. */
  lemma MillionthIdIsEarlier(now: nat)
    ensures LexLt(MessageId(now, 1000000), MessageId(now, 999999))
  {
    hide Pow10, Digits, SeqPart, LexLe, MessageId;
    SixDigits();
    SeqPartWidth(999999);
    SeqPartWidth(1000000);
    LaterIdIff(now, 999999, now, 1000000);
    LexOrder(MessageId(now, 1000000), MessageId(now, 999999), []);
    IdsAreUnique(now, 999999, now, 1000000);
  }
}
