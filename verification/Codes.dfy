/**
 The code format `PREFIX-003` shared by the registration view and the renumbering migration: zero
 padded to three digits, longer when needed, and read back by a regular expression search.
 */
module Codes {
  import opened Wrappers

  predicate IsDigit(c: char) {
    '0' <= c <= '9'
  }

  predicate AllDigits(s: string) {
    forall k :: 0 <= k < |s| ==> IsDigit(s[k])
  }

  function Digit(n: nat): (c: char)
    requires n < 10
    ensures IsDigit(c)
  {
    '0' + n as char
  }

  function Decimal(n: nat): (s: string)
    ensures |s| > 0 && AllDigits(s)
  {
    if n < 10 then [Digit(n)] else Decimal(n / 10) + [Digit(n % 10)]
  }

  function PadZeros(s: string, width: nat): string
    decreases width - |s|
  {
    if |s| >= width then s else PadZeros("0" + s, width)
  }

  /** `{n:03d}` */
  function Padded(n: nat): string {
    PadZeros(Decimal(n), 3)
  }

  /** `int(...)` of a string of digits. */
  function ParseDigits(s: string): nat
    requires AllDigits(s)
  {
    if s == [] then 0 else 10 * ParseDigits(s[..|s| - 1]) + (s[|s| - 1] as int - '0' as int)
  }

  lemma {:induction false} ParseDecimal(n: nat)
    ensures ParseDigits(Decimal(n)) == n
  {
    var s := Decimal(n);
    if n < 10 {
      assert s[..0] == [];
    } else {
      ParseDecimal(n / 10);
      assert s[..|s| - 1] == Decimal(n / 10);
    }
  }

  lemma {:induction false} ParseLeadingZero(s: string)
    requires AllDigits(s)
    ensures AllDigits("0" + s) && ParseDigits("0" + s) == ParseDigits(s)
  {
    if s == [] {
      assert "0" + s == "0" && "0"[..0] == [];
    } else {
      ParseLeadingZero(s[..|s| - 1]);
      assert ("0" + s)[..|s|] == "0" + s[..|s| - 1];
    }
  }

  lemma {:induction false} ParsePadded(s: string, width: nat)
    requires AllDigits(s)
    ensures AllDigits(PadZeros(s, width)) && |PadZeros(s, width)| >= |s|
            && ParseDigits(PadZeros(s, width)) == ParseDigits(s)
    decreases width - |s|
  {
    if |s| < width {
      ParseLeadingZero(s);
      ParsePadded("0" + s, width);
    }
  }

  lemma {:induction false} PaddedReadsBack(n: nat)
    ensures AllDigits(Padded(n)) && |Padded(n)| > 0 && ParseDigits(Padded(n)) == n
  {
    ParsePadded(Decimal(n), 3);
    ParseDecimal(n);
  }

  lemma {:induction false} DecimalSize(n: nat)
    ensures n > 0 ==> Decimal(n)[0] != '0'
    ensures |Decimal(n)| <= 3 <==> n < 1000
  {
    if n >= 10 {
      DecimalSize(n / 10);
      if n >= 1000 {
        DecimalLong(n / 10);
      } else {
        DecimalShort(n / 10);
      }
    }
  }

  lemma {:induction false} DecimalShort(n: nat)
    requires n < 100
    ensures |Decimal(n)| <= 2
  {
  }

  lemma {:induction false} DecimalLong(n: nat)
    requires n >= 100
    ensures |Decimal(n)| >= 3
  {
    assert |Decimal(n / 10)| >= 2;
  }

  /** Three digits below a thousand; from a thousand on as many as it takes, without a leading zero. */
  lemma {:induction false} PaddedSize(n: nat)
    ensures n < 1000 ==> |Padded(n)| == 3
    ensures n >= 1000 ==> |Padded(n)| > 3 && Padded(n)[0] != '0'
  {
    DecimalSize(n);
    PadZerosSize(Decimal(n), 3);
  }

  lemma {:induction false} PadZerosSize(s: string, width: nat)
    ensures |s| <= width ==> |PadZeros(s, width)| == width
    decreases width - |s|
  {
    if |s| < width {
      PadZerosSize("0" + s, width);
    }
  }

  function Code(prefix: string, n: nat): string {
    prefix + "-" + Padded(n)
  }

  /** Different numbers have different codes, below and above three digits alike. */
  lemma {:induction false} CodesAreInjective(prefix: string, m: nat, n: nat)
    ensures Code(prefix, m) == Code(prefix, n) <==> m == n
  {
    PaddedReadsBack(m);
    PaddedReadsBack(n);
    assert Code(prefix, m)[|prefix| + 1..] == Padded(m);
    assert Code(prefix, n)[|prefix| + 1..] == Padded(n);
  }

  // ---------------------------------------------------------------- the next free code

  function DigitRun(s: string): (r: string)
    ensures r <= s && AllDigits(r)
    ensures |r| < |s| ==> !IsDigit(s[|r|])
  {
    if s == [] || !IsDigit(s[0]) then [] else [s[0]] + DigitRun(s[1..])
  }

  /** The match of `PREFIX-(\d+)` at the start of `s`. */
  function MatchAt(prefix: string, s: string): Option<nat> {
    if prefix + "-" <= s && DigitRun(s[|prefix| + 1..]) != []
    then Some(ParseDigits(DigitRun(s[|prefix| + 1..]))) else None
  }

  /** `re.search`: the leftmost match. */
  function Search(prefix: string, uid: string): Option<nat> {
    if MatchAt(prefix, uid).Some? || uid == [] then MatchAt(prefix, uid) else Search(prefix, uid[1..])
  }

  /** The prefix, a hyphen and a digit stand at position k. */
  predicate HitAt(prefix: string, uid: string, k: nat) {
    && k + |prefix| + 1 < |uid|
    && uid[k..k + |prefix|] == prefix && uid[k + |prefix|] == '-' && IsDigit(uid[k + |prefix| + 1])
  }

  /** The number of all the digits from that digit on. */
  function NumberAt(prefix: string, uid: string, k: nat): Option<nat> {
    if HitAt(prefix, uid, k) then Some(ParseDigits(DigitRun(uid[k + |prefix| + 1..]))) else None
  }

  lemma {:induction false} MatchIsHit(prefix: string, s: string)
    ensures MatchAt(prefix, s) == NumberAt(prefix, s, 0)
  {
    if prefix + "-" <= s {
      assert s[..|prefix|] == prefix && s[|prefix|] == '-';
    }
    if HitAt(prefix, s, 0) {
      assert s[..|prefix| + 1] == s[..|prefix|] + [s[|prefix|]];
      assert prefix + "-" <= s;
    }
  }

  lemma {:induction false} HitInTail(prefix: string, uid: string, k: nat)
    requires uid != []
    ensures HitAt(prefix, uid[1..], k) <==> HitAt(prefix, uid, k + 1)
    ensures NumberAt(prefix, uid[1..], k) == NumberAt(prefix, uid, k + 1)
  {
    if k + |prefix| + 1 < |uid| - 1 {
      var start := k + |prefix| + 1;
      assert uid[1..][k..k + |prefix|] == uid[k + 1..k + 1 + |prefix|];
      assert uid[1..][start..] == uid[start + 1..];
    }
  }

  /** The search yields the number at the leftmost place where prefix, hyphen and digit stand, and none without one. */
  lemma {:induction false} SearchIff(prefix: string, uid: string) returns (k: nat)
    ensures Search(prefix, uid) == NumberAt(prefix, uid, k)
    ensures forall j: nat :: HitAt(prefix, uid, j) ==> HitAt(prefix, uid, k) && k <= j
  {
    MatchIsHit(prefix, uid);
    k := 0;
    if !HitAt(prefix, uid, 0) && uid != [] {
      var i := SearchIff(prefix, uid[1..]);
      k := i + 1;
      HitInTail(prefix, uid, i);
      forall j: nat | HitAt(prefix, uid, j)
        ensures HitAt(prefix, uid, k) && k <= j
      {
        HitInTail(prefix, uid, j - 1);
      }
    }
  }

  lemma {:induction false} DigitRunOfDigits(s: string)
    requires AllDigits(s)
    ensures DigitRun(s) == s
  {
  }

  /** A code is found by the search that looks for taken numbers. */
  lemma {:induction false} SearchFindsCode(prefix: string, n: nat)
    ensures Search(prefix, Code(prefix, n)) == Some(n)
  {
    PaddedReadsBack(n);
    var code := Code(prefix, n);
    assert prefix + "-" <= code && code[|prefix| + 1..] == Padded(n);
    DigitRunOfDigits(Padded(n));
  }

  /** `_next_device_code` and the numbering in `gas_create`. */
  method NextNumber(prefix: string, uids: seq<string>) returns (next: nat)
    ensures next >= 1
    ensures forall uid :: uid in uids && Search(prefix, uid).Some? ==> Search(prefix, uid).value < next
    ensures next == 1 || exists uid :: uid in uids && Search(prefix, uid) == Some(next - 1)
    ensures Code(prefix, next) !in uids
  {
    var largest: Option<nat> := None;
    for k := 0 to |uids|
      invariant largest.None? ==> forall uid :: uid in uids[..k] ==> Search(prefix, uid).None?
      invariant largest.Some? ==> exists uid :: uid in uids[..k] && Search(prefix, uid) == largest
      invariant largest.Some? ==>
                  forall uid :: uid in uids[..k] && Search(prefix, uid).Some? ==>
                    Search(prefix, uid).value <= largest.value
    {
      assert uids[..k + 1] == uids[..k] + [uids[k]];
      assert uids[k] in uids[..k + 1];
      var found := Search(prefix, uids[k]);
      if found.Some? && (largest.None? || largest.value < found.value) {
        largest := found;
      }
    }
    assert uids[..|uids|] == uids;
    next := if largest.Some? then largest.value + 1 else 1;
    SearchFindsCode(prefix, next);
  }
}
