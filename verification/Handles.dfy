/** Byte strings and the well-formed sequences of section 4 of RFC 3629. */
module Utf8 {
  type Byte = b: nat | b < 256

  type Bytes = seq<Byte>

  predicate IsContinuation(b: Byte) {
    0x80 <= b <= 0xBF
  }

  /** Length of the character a lead byte announces; zero for no lead byte. */
  function Announced(b: Byte): nat {
    if b <= 0x7F then 1
    else if 0xC2 <= b <= 0xDF then 2 else if 0xE0 <= b <= 0xEF then 3 else if 0xF0 <= b <= 0xF4 then 4 else 0
  }

  /** The second byte excludes overlong forms, surrogates and everything past U+10FFFF. */
  predicate SecondFits(lead: Byte, second: Byte) {
    IsContinuation(second) &&
    (lead == 0xE0 ==> second >= 0xA0) && (lead == 0xED ==> second <= 0x9F) && (lead == 0xF0 ==> second >= 0x90) &&
    (lead == 0xF4 ==> second <= 0x8F)
  }

  /** One character at the start of the bytes. */
  predicate CharAt(bytes: Bytes) {
    bytes != [] &&
    var n := Announced(bytes[0]);
    && 1 <= n <= |bytes|
    && (n >= 2 ==> SecondFits(bytes[0], bytes[1]))
    && (forall i :: 2 <= i < n ==> IsContinuation(bytes[i]))
  }

  predicate Valid(bytes: Bytes) {
    bytes == [] || (CharAt(bytes) && Valid(bytes[Announced(bytes[0])..]))
  }

  /** Between two characters, at either end included. */
  predicate IsBoundary(bytes: Bytes, i: nat) {
    i == 0 || i == |bytes| || (i < |bytes| && !IsContinuation(bytes[i]))
  }

  /** Cutting well-formed text at a boundary leaves two well-formed texts. */
  lemma {:induction false} CutIsValid(bytes: Bytes, i: nat)
    requires Valid(bytes) && i <= |bytes| && IsBoundary(bytes, i)
    ensures Valid(bytes[..i]) && Valid(bytes[i..])
    decreases |bytes|
  {
    if i == 0 {
      assert bytes[..0] == [] && bytes[0..] == bytes;
    } else if i == |bytes| {
      assert bytes[..i] == bytes && bytes[i..] == [];
    } else {
      hide Valid, CharAt, Announced;
      ValidSplit(bytes);
      InsideIsContinuation(bytes, i);
      var n := Announced(bytes[0]);
      var rest := bytes[n..];
      assert i - n < |rest| ==> rest[i - n] == bytes[i];
      CutIsValid(rest, i - n);
      assert rest[i - n..] == bytes[i..];
      CharInFront(bytes, i);
      ValidSplit(bytes[..i]);
    }
  }

  lemma CharInFront(bytes: Bytes, i: nat)
    requires CharAt(bytes) && 0 < Announced(bytes[0]) <= i <= |bytes|
    ensures var (front, n) := (bytes[..i], Announced(bytes[0]));
      CharAt(front) && front[0] == bytes[0] && front[n..] == bytes[n..][..i - n]
  {
  }

  lemma ValidSplit(bytes: Bytes)
    requires bytes != []
    ensures Valid(bytes) <==> CharAt(bytes) && Valid(bytes[Announced(bytes[0])..])
    ensures CharAt(bytes) ==> 1 <= Announced(bytes[0]) <= |bytes|
  {
  }

  lemma InsideIsContinuation(bytes: Bytes, i: nat)
    requires CharAt(bytes) && 0 < i < |bytes| && !IsContinuation(bytes[i])
    ensures i >= Announced(bytes[0])
  {
    assert i == 1 && Announced(bytes[0]) >= 2 ==> SecondFits(bytes[0], bytes[i]);
  }
}

/** Provisioning an account handle for a first OAuth login. */
module Handles {
  import opened Basics
  import opened Decimals
  import opened Utf8

  const MAX_OAUTH_HANDLE_COLLISION_ATTEMPTS: U32 := 20

  // ---- Bounds derived from the attempt limit ----

  method DecimalDigitCount(value: U32) returns (digits: nat)
    ensures digits == |Decimal(value)|
  {
    var rest: nat := value;
    digits := 1;
    while rest >= 10
      invariant digits + |Decimal(rest)| == |Decimal(value)| + 1
    {
      rest := rest / 10;
      digits := digits + 1;
    }
  }

  /** The separator and the widest suffix. */
  const SUFFIX_RESERVE_BYTES: nat := 1 + |Decimal(MAX_OAUTH_HANDLE_COLLISION_ATTEMPTS)|

  const MIN_VIABLE_MAX_HANDLE_LENGTH: nat := SUFFIX_RESERVE_BYTES + 1

  lemma ReserveIsThree()
    ensures SUFFIX_RESERVE_BYTES == 3 && MIN_VIABLE_MAX_HANDLE_LENGTH == 4
  {
    assert |Decimal(20)| == |Decimal(2)| + 1;
  }

  lemma {:induction false} ShorterNumeral(m: nat, n: nat)
    requires m <= n
    ensures |Decimal(m)| <= |Decimal(n)|
  {
    if m >= 10 { ShorterNumeral(m / 10, n / 10); }
  }

  // ---- Truncation ----

  /** The longest prefix within the bound that ends on a character boundary. */
  ghost predicate IsTruncation(value: Bytes, bound: nat, r: Bytes) {
    && |r| <= bound && |r| <= |value| && r == value[..|r|] && IsBoundary(value, |r|)
    && forall n :: |r| < n <= bound && n <= |value| ==> !IsBoundary(value, n)
  }

  method TruncateToByteLength(value: Bytes, bound: nat) returns (r: Bytes)
    ensures IsTruncation(value, bound, r)
  {
    if |value| <= bound {
      assert value[..|value|] == value;
      return value;
    }
    var end: nat := bound;
    while end > 0 && !IsBoundary(value, end)
      invariant end <= bound
      invariant forall n: nat :: end < n <= bound ==> !IsBoundary(value, n)
    {
      end := end - 1;
    }
    return value[..end];
  }

  /** The truncation is a function of value and bound. */
  function Truncated(value: Bytes, bound: nat): (r: Bytes)
    ensures IsTruncation(value, bound, r)
  {
    if |value| <= bound then assert value[..|value|] == value; value else CutBack(value, bound)
  }

  function CutBack(value: Bytes, bound: nat): (r: Bytes)
    requires bound <= |value|
    ensures IsTruncation(value, bound, r)
  {
    if IsBoundary(value, bound) then value[..bound] else CutBack(value, bound - 1)
  }

  lemma OneTruncation(value: Bytes, bound: nat, r: Bytes)
    requires IsTruncation(value, bound, r)
    ensures r == Truncated(value, bound)
  {
  }

  lemma TruncatedIsValid(value: Bytes, bound: nat)
    requires Valid(value)
    ensures Valid(Truncated(value, bound))
  {
    CutIsValid(value, |Truncated(value, bound)|);
  }

  // ---- Candidates ----

  function Ascii(text: string): Bytes
    requires forall i :: 0 <= i < |text| ==> text[i] < 128 as char
  {
    if text == "" then [] else [text[0] as nat] + Ascii(text[1..])
  }

  function Number(n: nat): Bytes {
    Ascii(Decimal(n))
  }

  const UNDERSCORE: Byte := 95
  const HYPHEN: Byte := 45

  function Identity(provider: Bytes, user: Bytes): Bytes {
    provider + [UNDERSCORE] + user
  }

  function BaseHandle(identity: Bytes, bound: nat): Bytes {
    Truncated(identity, bound)
  }

  /** The bound left for the base of a suffixed handle; never below zero. */
  function Reserved(bound: nat): nat {
    if bound <= SUFFIX_RESERVE_BYTES then 0 else bound - SUFFIX_RESERVE_BYTES
  }

  function Candidate(identity: Bytes, bound: nat, suffix: nat): Bytes {
    Truncated(Truncated(identity, Reserved(bound)) + [HYPHEN] + Number(suffix), bound)
  }

  lemma NoAscii()
    ensures Ascii("") == []
  {
  }

  lemma AsciiStep(a: string)
    requires a != "" && forall i :: 0 <= i < |a| ==> a[i] < 128 as char
    ensures Ascii(a) == [a[0] as nat] + Ascii(a[1..])
  {
  }

  lemma {:induction false} AsciiAppend(a: string, b: string)
    requires forall i :: 0 <= i < |a| ==> a[i] < 128 as char
    requires forall i :: 0 <= i < |b| ==> b[i] < 128 as char
    ensures (forall i :: 0 <= i < |a + b| ==> (a + b)[i] < 128 as char) && Ascii(a + b) == Ascii(a) + Ascii(b)
  {
    hide Ascii;
    assert forall i :: 0 <= i < |b| ==> (a + b)[|a| + i] == b[i];
    if a == "" {
      assert a + b == b;
      NoAscii();
    } else {
      AsciiAppend(a[1..], b);
      AsciiStep(a);
      AsciiStep(a + b);
      assert (a + b)[1..] == a[1..] + b;
    }
  }

  lemma {:induction false} AsciiInjective(a: string, b: string)
    requires forall i :: 0 <= i < |a| ==> a[i] < 128 as char
    requires forall i :: 0 <= i < |b| ==> b[i] < 128 as char
    requires Ascii(a) == Ascii(b)
    ensures a == b
  {
    if a != "" && b != "" {
      assert Ascii(a)[0] == Ascii(b)[0] && Ascii(a)[1..] == Ascii(a[1..]) && Ascii(b)[1..] == Ascii(b[1..]);
      AsciiInjective(a[1..], b[1..]);
    }
  }

  lemma {:induction false} AsciiLength(a: string)
    requires forall i :: 0 <= i < |a| ==> a[i] < 128 as char
    ensures |Ascii(a)| == |a| && Valid(Ascii(a)) && forall i :: 0 <= i < |a| ==> Ascii(a)[i] < 128
  {
    if a != "" { AsciiLength(a[1..]); assert Ascii(a)[1..] == Ascii(a[1..]); }
  }

  lemma NumberInjective(m: nat, n: nat)
    requires Number(m) == Number(n)
    ensures m == n
  {
    AsciiInjective(Decimal(m), Decimal(n));
    DecimalInjective(m, n);
  }

  /** With room for the reserve no suffixed candidate is truncated. */
  lemma CandidateFits(identity: Bytes, bound: nat, suffix: nat)
    requires bound >= SUFFIX_RESERVE_BYTES && suffix <= MAX_OAUTH_HANDLE_COLLISION_ATTEMPTS
    ensures Candidate(identity, bound, suffix) == Truncated(identity, Reserved(bound)) + [HYPHEN] + Number(suffix)
  {
    ShorterNumeral(suffix, MAX_OAUTH_HANDLE_COLLISION_ATTEMPTS);
    AsciiLength(Decimal(suffix));
  }

  lemma CandidatesApart(identity: Bytes, bound: nat, m: nat, n: nat)
    requires bound >= SUFFIX_RESERVE_BYTES && m <= MAX_OAUTH_HANDLE_COLLISION_ATTEMPTS
    requires n <= MAX_OAUTH_HANDLE_COLLISION_ATTEMPTS
    requires Candidate(identity, bound, m) == Candidate(identity, bound, n)
    ensures m == n
  {
    CandidateFits(identity, bound, m);
    CandidateFits(identity, bound, n);
    var head := Truncated(identity, Reserved(bound)) + [HYPHEN];
    assert (head + Number(m))[|head|..] == Number(m) && (head + Number(n))[|head|..] == Number(n);
    NumberInjective(m, n);
  }

  ghost predicate AllApart(identity: Bytes, bound: nat) {
    forall m, n :: (2 <= m <= MAX_OAUTH_HANDLE_COLLISION_ATTEMPTS && 2 <= n <= MAX_OAUTH_HANDLE_COLLISION_ATTEMPTS
                    && Candidate(identity, bound, m) == Candidate(identity, bound, n)) ==> m == n
  }

  /** Below the reserve the numbers 10 and 11 lose the digit that tells them apart. */
  lemma ShortBoundCollapses(identity: Bytes, bound: nat)
    requires bound < 3
    ensures Candidate(identity, bound, 10) == Candidate(identity, bound, 11)
  {
    ReserveIsThree();
    var empty := Truncated(identity, 0);
    assert empty == [];
    AsciiAppend("1", "0");
    AsciiAppend("1", "1");
    assert Decimal(10) == Decimal(1) + "0" && Decimal(11) == Decimal(1) + "1" && Decimal(1) == "1";
    assert Ascii("1") == [49] && Ascii("0") == [48];
    var ten, eleven := empty + [HYPHEN] + Number(10), empty + [HYPHEN] + Number(11);
    assert ten == [HYPHEN, 49, 48] && eleven == [HYPHEN, 49, 49];
    assert ten[..2] == eleven[..2] && ten[..1] == eleven[..1] && ten[..0] == eleven[..0];
    CutHere(ten, bound);
    CutHere(eleven, bound);
  }

  lemma CutHere(value: Bytes, bound: nat)
    requires bound < |value| && IsBoundary(value, bound)
    ensures Truncated(value, bound) == value[..bound]
  {
  }

  /** The suffixed candidates are pairwise different exactly when the bound has room for the reserve. */
  lemma CandidatesApartIff(identity: Bytes, bound: nat)
    ensures AllApart(identity, bound) <==> bound >= SUFFIX_RESERVE_BYTES
  {
    ReserveIsThree();
    if bound >= SUFFIX_RESERVE_BYTES {
      forall m, n | 2 <= m <= MAX_OAUTH_HANDLE_COLLISION_ATTEMPTS && 2 <= n <= MAX_OAUTH_HANDLE_COLLISION_ATTEMPTS
        && Candidate(identity, bound, m) == Candidate(identity, bound, n) ensures m == n
      {
        CandidatesApart(identity, bound, m, n);
      }
    } else {
      ShortBoundCollapses(identity, bound);
    }
  }

  /** Every handle tried is within the bound and well-formed. */
  lemma HandlesAreSound(identity: Bytes, bound: nat, suffix: nat)
    requires Valid(identity)
    ensures |BaseHandle(identity, bound)| <= bound && Valid(BaseHandle(identity, bound))
    ensures |Candidate(identity, bound, suffix)| <= bound && Valid(Candidate(identity, bound, suffix))
  {
    TruncatedIsValid(identity, bound);
    TruncatedIsValid(identity, Reserved(bound));
    AsciiLength(Decimal(suffix));
    var head := Truncated(identity, Reserved(bound));
    assert Valid([HYPHEN]) by { assert [HYPHEN][1..] == []; }
    ValidJoin(head, [HYPHEN]);
    ValidJoin(head + [HYPHEN], Number(suffix));
    TruncatedIsValid(head + [HYPHEN] + Number(suffix), bound);
  }

  lemma {:induction false} ValidJoin(a: Bytes, b: Bytes)
    requires Valid(a) && Valid(b)
    ensures Valid(a + b)
    decreases |a|
  {
    hide Valid;
    if a == [] {
      assert a + b == b;
    } else {
      var n := Announced(a[0]);
      ValidSplit(a);
      ValidJoin(a[n..], b);
      assert (a + b)[n..] == a[n..] + b;
      ValidSplit(a + b);
    }
  }

  // ---- Allocation ----

  datatype Account = Free | Taken | Unknown

  datatype HandleError = UserLookup(handle: Bytes) | HandleAllocationExhausted(attempts: nat)

  /** What the account table says of a handle; a handle it does not list is free. */
  function Lookup(accounts: map<Bytes, Account>, handle: Bytes): Account {
    if handle in accounts then accounts[handle] else Free
  }

  /** The handles tried, in order: the preferred one, then the suffixed ones. */
  function Tried(identity: Bytes, bound: nat, k: nat): Bytes {
    if k == 0 then BaseHandle(identity, bound) else Candidate(identity, bound, k + 1)
  }

  ghost predicate AllTaken(accounts: map<Bytes, Account>, identity: Bytes, bound: nat, n: nat) {
    forall j :: 0 <= j < n ==> Lookup(accounts, Tried(identity, bound, j)).Taken?
  }

  /** The k-th handle tried is the first that is not taken. */
  ghost predicate DecidedBy(accounts: map<Bytes, Account>, identity: Bytes, bound: nat, k: nat, handle: Bytes,
          answer: Account) {
    && k < MAX_OAUTH_HANDLE_COLLISION_ATTEMPTS && handle == Tried(identity, bound, k)
    && Lookup(accounts, handle) == answer && AllTaken(accounts, identity, bound, k)
  }

  /** The first handle not taken decides; nothing tried earlier was anything but taken. */
  method ProvisionOauthHandle(accounts: map<Bytes, Account>, provider: Bytes, user: Bytes, bound: nat)
    returns (r: Result<Bytes, HandleError>)
    ensures r.Ok? ==> exists k: nat :: DecidedBy(accounts, Identity(provider, user), bound, k, r.value, Free)
    ensures r.Err? && r.error.UserLookup? ==>
      exists k: nat :: DecidedBy(accounts, Identity(provider, user), bound, k, r.error.handle, Unknown)
    ensures r.Err? && r.error.HandleAllocationExhausted? ==>
      AllTaken(accounts, Identity(provider, user), bound, MAX_OAUTH_HANDLE_COLLISION_ATTEMPTS)
  {
    hide Truncated, IsTruncation, Number, Reserved, Candidate, BaseHandle;
    var identity := Identity(provider, user);
    var base := TruncateToByteLength(identity, bound);
    OneTruncation(identity, bound, base);
    BaseIs(identity, bound);
    assert base == Tried(identity, bound, 0);
    match Lookup(accounts, base) {
      case Unknown => assert DecidedBy(accounts, identity, bound, 0, base, Unknown); return Err(UserLookup(base));
      case Free => assert DecidedBy(accounts, identity, bound, 0, base, Free); return Ok(base);
      case Taken =>
    }
    var suffixBase := TruncateToByteLength(identity, Reserved(bound));
    OneTruncation(identity, Reserved(bound), suffixBase);
    var suffix := 2;
    while suffix <= MAX_OAUTH_HANDLE_COLLISION_ATTEMPTS
      invariant 2 <= suffix <= MAX_OAUTH_HANDLE_COLLISION_ATTEMPTS + 1
      invariant AllTaken(accounts, identity, bound, suffix - 1)
    {
      var candidate := TruncateToByteLength(suffixBase + [HYPHEN] + Number(suffix), bound);
      OneTruncation(suffixBase + [HYPHEN] + Number(suffix), bound, candidate);
      CandidateIs(identity, bound, suffix);
      assert candidate == Tried(identity, bound, suffix - 1);
      match Lookup(accounts, candidate) {
        case Unknown => assert DecidedBy(accounts, identity, bound, suffix - 1, candidate,
          Unknown); return Err(UserLookup(candidate));
        case Free => assert DecidedBy(accounts, identity, bound, suffix - 1, candidate, Free); return Ok(candidate);
        case Taken =>
      }
      suffix := suffix + 1;
    }
    return Err(HandleAllocationExhausted(MAX_OAUTH_HANDLE_COLLISION_ATTEMPTS));
  }

  lemma BaseIs(identity: Bytes, bound: nat)
    ensures BaseHandle(identity, bound) == Truncated(identity, bound)
  {
  }

  lemma CandidateIs(identity: Bytes, bound: nat, suffix: nat)
    ensures Candidate(identity, bound, suffix) ==
      Truncated(Truncated(identity, Reserved(bound)) + [HYPHEN] + Number(suffix), bound)
  {
  }

  /** A number below a hundred in ASCII digits. */
  function InDigits(n: nat): Bytes
    requires n < 100
  {
    if n < 10 then [48 + n] else [48 + n / 10, 48 + n % 10]
  }

  lemma NumberIs(n: nat)
    requires n < 100
    ensures Number(n) == InDigits(n)
  {
    if n < 10 {
      DigitIs(n);
    } else {
      DigitIs(n / 10);
      DigitIs(n % 10);
      assert Decimal(n) == Decimal(n / 10) + Decimal(n % 10);
      AsciiAppend(Decimal(n / 10), Decimal(n % 10));
    }
  }

  lemma DigitIs(n: nat)
    requires n < 10
    ensures Ascii(Decimal(n)) == [48 + n] && |Decimal(n)| == 1
  {
    assert Decimal(n)[1..] == "";
  }

  /**
    What is tried, spelled out: first the provider, an underscore and the user, cut to the bound; then the same
    cut three bytes shorter, a hyphen and a number from 2 to 20, cut to the bound.
  */
  lemma TriedAre(provider: Bytes, user: Bytes, bound: nat, k: nat, front: Bytes)
    requires k < 20 && IsTruncation(provider + [95] + user, if bound < 3 then 0 else bound - 3, front)
    ensures var tried := Tried(Identity(provider, user), bound, k);
      if k == 0 then IsTruncation(provider + [95] + user, bound, tried)
      else IsTruncation(front + [45] + InDigits(k + 1), bound, tried)
  {
    hide IsTruncation, Truncated, Number, InDigits;
    ReserveIsThree();
    OneTruncation(provider + [95] + user, if bound < 3 then 0 else bound - 3, front);
    NumberIs(k + 1);
    CandidateIs(provider + [95] + user, bound, k + 1);
    BaseIs(provider + [95] + user, bound);
  }

  // ---- Exhaustion ----

  function Candidates(identity: Bytes, bound: nat, n: nat): set<Bytes> {
    set k | 2 <= k <= n :: Candidate(identity, bound, k)
  }

  lemma {:induction false} CandidateCount(identity: Bytes, bound: nat, n: nat)
    requires bound >= SUFFIX_RESERVE_BYTES && 1 <= n <= MAX_OAUTH_HANDLE_COLLISION_ATTEMPTS
    ensures |Candidates(identity, bound, n)| == n - 1
  {
    hide Candidate, Candidates;
    if n == 1 {
      NoCandidates(identity, bound);
    } else {
      CandidateCount(identity, bound, n - 1);
      OneMoreCandidate(identity, bound, n);
      NewCandidate(identity, bound, n);
    }
  }

  lemma NoCandidates(identity: Bytes, bound: nat)
    ensures Candidates(identity, bound, 1) == {}
  {
  }

  lemma OneMoreCandidate(identity: Bytes, bound: nat, n: nat)
    requires n >= 2
    ensures Candidates(identity, bound, n) == Candidates(identity, bound, n - 1) + {Candidate(identity, bound, n)}
  {
    hide Candidate;
  }

  lemma NewCandidate(identity: Bytes, bound: nat, n: nat)
    requires bound >= SUFFIX_RESERVE_BYTES && 2 <= n <= MAX_OAUTH_HANDLE_COLLISION_ATTEMPTS
    ensures Candidate(identity, bound, n) !in Candidates(identity, bound, n - 1)
  {
    hide Candidate;
    if Candidate(identity, bound, n) in Candidates(identity, bound, n - 1) {
      var k :| 2 <= k <= n - 1 && Candidate(identity, bound, k) == Candidate(identity, bound, n);
      CandidatesApart(identity, bound, k, n);
    }
  }

  lemma {:induction false} SubsetCount<T>(a: set<T>, b: set<T>)
    requires a <= b
    ensures |a| <= |b|
  {
    if a != {} {
      var x :| x in a;
      SubsetCount(a - {x}, b - {x});
    }
  }

  // ---- When a candidate is the preferred handle itself ----

  /** Behind the part kept for suffixed handles the preferred handle goes on with exactly this suffix. */
  predicate GoesOnWith(identity: Bytes, bound: nat, suffix: nat)
    requires |Truncated(identity, Reserved(bound))| <= |BaseHandle(identity, bound)| <= |identity|
  {
    identity[|Truncated(identity, Reserved(bound))|..|BaseHandle(identity, bound)|] == [HYPHEN] + Number(suffix)
  }

  /** A smaller bound never keeps more. */
  lemma ShorterTruncation(value: Bytes, small: nat, large: nat)
    requires small <= large
    ensures |Truncated(value, small)| <= |Truncated(value, large)| <= |value|
    ensures value[..|Truncated(value, small)|] == Truncated(value, small)
    ensures value[..|Truncated(value, large)|] == Truncated(value, large)
  {
    hide IsBoundary;
  }

  /**
    A suffixed candidate is the preferred handle exactly when that goes on with the suffix behind its shortened
    form.
  */
  lemma CandidateIsTheBaseIff(identity: Bytes, bound: nat, suffix: nat)
    requires bound >= SUFFIX_RESERVE_BYTES && suffix <= MAX_OAUTH_HANDLE_COLLISION_ATTEMPTS
    ensures |Truncated(identity, Reserved(bound))| <= |BaseHandle(identity, bound)| <= |identity|
    ensures Candidate(identity, bound, suffix) == BaseHandle(identity, bound) <==> GoesOnWith(identity, bound, suffix)
  {
    hide Truncated, Candidate, Number, IsTruncation;
    CandidateFits(identity, bound, suffix);
    ShorterTruncation(identity, Reserved(bound), bound);
    var i, j, tail := |Truncated(identity, Reserved(bound))|, |BaseHandle(identity, bound)|, [HYPHEN] + Number(suffix);
    assert identity[..i] + tail == identity[..i] + [HYPHEN] + Number(suffix);
  }

  /** At most one candidate is. */
  lemma OneCandidateIsTheBase(identity: Bytes, bound: nat, m: nat, n: nat)
    requires bound >= SUFFIX_RESERVE_BYTES && m <= MAX_OAUTH_HANDLE_COLLISION_ATTEMPTS
    requires n <= MAX_OAUTH_HANDLE_COLLISION_ATTEMPTS
    requires Candidate(identity, bound, m) == BaseHandle(identity, bound) == Candidate(identity, bound, n)
    ensures m == n
  {
    hide Candidate;
    CandidatesApart(identity, bound, m, n);
  }

  // ---- How many handles must be taken ----

  /** Some candidate repeats the preferred handle. */
  ghost predicate BaseRepeats(identity: Bytes, bound: nat) {
    exists k ::
      2 <= k <= MAX_OAUTH_HANDLE_COLLISION_ATTEMPTS && Candidate(identity, bound, k) == BaseHandle(identity, bound)
  }

  /** Everything a login tries. */
  function TriedHandles(identity: Bytes, bound: nat): set<Bytes> {
    {BaseHandle(identity, bound)} + Candidates(identity, bound, MAX_OAUTH_HANDLE_COLLISION_ATTEMPTS)
  }

  lemma TriedCount(identity: Bytes, bound: nat)
    requires bound >= SUFFIX_RESERVE_BYTES
    ensures |TriedHandles(identity, bound)|
         == if BaseRepeats(identity, bound) then MAX_OAUTH_HANDLE_COLLISION_ATTEMPTS - 1
            else MAX_OAUTH_HANDLE_COLLISION_ATTEMPTS
  {
    hide Candidate, BaseHandle;
    CandidateCount(identity, bound, MAX_OAUTH_HANDLE_COLLISION_ATTEMPTS);
    var base, rest := BaseHandle(identity, bound), Candidates(identity, bound, MAX_OAUTH_HANDLE_COLLISION_ATTEMPTS);
    assert base in rest <==> BaseRepeats(identity, bound);
    if base in rest { assert {base} + rest == rest; }
  }

  /** Giving up means that every handle tried is taken, and nothing else. */
  lemma AllTakenIff(accounts: map<Bytes, Account>, identity: Bytes, bound: nat, taken: set<Bytes>)
    requires forall h :: h in taken <==> h in accounts && accounts[h].Taken?
    ensures AllTaken(accounts, identity, bound, MAX_OAUTH_HANDLE_COLLISION_ATTEMPTS)
      <==> TriedHandles(identity, bound) <= taken
  {
    hide Candidate, BaseHandle;
    if AllTaken(accounts, identity, bound, MAX_OAUTH_HANDLE_COLLISION_ATTEMPTS) {
      forall h | h in TriedHandles(identity, bound) ensures h in taken {
        if h == BaseHandle(identity, bound) {
          assert h == Tried(identity, bound, 0);
        } else {
          var k :| 2 <= k <= MAX_OAUTH_HANDLE_COLLISION_ATTEMPTS && h == Candidate(identity, bound, k);
          assert h == Tried(identity, bound, k - 1);
        }
      }
    }
    if TriedHandles(identity, bound) <= taken {
      forall j | 0 <= j < MAX_OAUTH_HANDLE_COLLISION_ATTEMPTS
        ensures Lookup(accounts, Tried(identity, bound, j)).Taken?
      {
        assert Tried(identity, bound, j) in TriedHandles(identity, bound);
      }
    }
  }

  /** Giving up takes twenty taken handles, or nineteen when one candidate repeats the preferred handle. */
  lemma ExhaustionNeedsTwenty(accounts: map<Bytes, Account>, identity: Bytes, bound: nat, taken: set<Bytes>)
    requires bound >= SUFFIX_RESERVE_BYTES
    requires AllTaken(accounts, identity, bound, MAX_OAUTH_HANDLE_COLLISION_ATTEMPTS)
    requires forall h :: h in taken <==> h in accounts && accounts[h].Taken?
    ensures |taken| >= if BaseRepeats(identity,
      bound) then MAX_OAUTH_HANDLE_COLLISION_ATTEMPTS - 1 else MAX_OAUTH_HANDLE_COLLISION_ATTEMPTS
  {
    hide TriedHandles, AllTaken, BaseRepeats;
    AllTakenIff(accounts, identity, bound, taken);
    TriedCount(identity, bound);
    SubsetCount(TriedHandles(identity, bound), taken);
  }

  /** No fewer do: with exactly the handles tried taken the login gives up. */
  lemma ExhaustionIsTight(accounts: map<Bytes, Account>, identity: Bytes, bound: nat)
    requires accounts.Keys == TriedHandles(identity, bound) && forall h :: h in accounts ==> accounts[h] == Taken
    ensures AllTaken(accounts, identity, bound, MAX_OAUTH_HANDLE_COLLISION_ATTEMPTS)
  {
    hide TriedHandles;
    AllTakenIff(accounts, identity, bound, accounts.Keys);
  }

  /** A suffixed candidate can be the preferred handle itself: user `b-2` of provider `a`, bound 6. */
  lemma CandidateCanBeTheBase()
    ensures var identity: Bytes := [97, UNDERSCORE, 98, HYPHEN, 50];
      Candidate(identity, 6, 2) == BaseHandle(identity, 6)
  {
    var identity: Bytes := [97, UNDERSCORE, 98, HYPHEN, 50];
    ReserveIsThree();
    CandidateFits(identity, 6, 2);
    CutHere(identity, 3);
    assert Decimal(2) == "2" && Ascii("2") == [50];
    assert identity[..3] + [HYPHEN] + [50] == identity;
  }
}
