/**
 Identities derived from a shared seed, and the `/p2p/rainbow-seed/N`
 placeholders that stand for them in peering addresses.

 Key derivation and the printing of peer ids are a parameter `derive`, from a
 seed and an info string to the peer id.
 */
module Seeds {
  import opened MachineInts
  import opened Text
  import opened Wrappers

  type PeerId = string

  datatype Error = OutOfRange | DerivationFailed | NegativeIndex | MissingIndex

  type Derive = (string, string) -> Result<PeerId, Error>

  // ----- Decimal numbers -----

  predicate IsDigit(c: char) { '0' <= c <= '9' }

  predicate AllDigits(s: string) { forall i :: 0 <= i < |s| ==> IsDigit(s[i]) }

  function Print(n: nat): (s: string)
    ensures |s| > 0 && AllDigits(s)
    ensures s[0] == '0' <==> n == 0
  {
    if n < 10 then ['0' + n as char] else Print(n / 10) + ['0' + (n % 10) as char]
  }

  function Value(s: string): nat
    requires AllDigits(s)
  {
    if s == "" then 0 else 10 * Value(s[..|s| - 1]) + (s[|s| - 1] - '0') as nat
  }

  lemma {:induction false} ValueOfPrint(n: nat)
    ensures Value(Print(n)) == n
  {
    var s := Print(n);
    if n >= 10 {
      ValueOfPrint(n / 10);
      assert s[..|s| - 1] == Print(n / 10);
    } else {
      assert s[..0] == "";
    }
  }

  lemma PrintHasNoLeadingZero(n: nat)
    ensures Print(n)[0] == '0' ==> |Print(n)| == 1
  {
  }

  function Pow10(k: nat): nat { if k == 0 then 1 else 10 * Pow10(k - 1) }

  /** The value of a decimal number by places: each digit counts times its power of ten. */
  function PlaceSum(s: string): nat
    requires AllDigits(s)
  {
    if s == "" then 0 else (s[0] - '0') as nat * Pow10(|s| - 1) + PlaceSum(s[1..])
  }

  /** Another digit makes the places before it count ten times as much. */
  lemma {:induction false} PlaceSumStep(s: string, d: char)
    requires AllDigits(s) && IsDigit(d)
    ensures AllDigits(s + [d]) && PlaceSum(s + [d]) == 10 * PlaceSum(s) + (d - '0') as nat
  {
    if s == "" {
      assert s + [d] == [d] && [d][1..] == "";
    } else {
      assert (s + [d])[1..] == s[1..] + [d];
      PlaceSumStep(s[1..], d);
      var c := (s[0] - '0') as nat;
      assert c * Pow10(|s|) == 10 * (c * Pow10(|s| - 1));
    }
  }

  /** Reading digit by digit gives the sum over the places. */
  lemma {:induction false} ValueIsPlaceSum(s: string)
    requires AllDigits(s)
    ensures Value(s) == PlaceSum(s)
  {
    if s != "" {
      var init, d := s[..|s| - 1], s[|s| - 1];
      ValueIsPlaceSum(init);
      PlaceSumStep(init, d);
      assert s == init + [d];
    }
  }

  function StripZeros(s: string): string {
    if |s| > 1 && s[0] == '0' then StripZeros(s[1..]) else s
  }

  lemma {:induction false} ValueOfZeroAnd(s: string)
    requires AllDigits(s) && |s| > 0 && s[0] == '0'
    ensures AllDigits(s[1..]) && Value(s) == Value(s[1..])
  {
    if |s| == 1 {
      assert s[..0] == "";
    } else {
      var init := s[..|s| - 1];
      ValueOfZeroAnd(init);
      assert s[1..][..|s| - 2] == init[1..];
    }
  }

  /** Dropping the last digit divides the value by ten. */
  lemma ValueStep(s: string)
    requires AllDigits(s) && |s| > 0
    ensures var d := (s[|s| - 1] - '0') as nat;
            && d < 10 && Value(s) / 10 == Value(s[..|s| - 1]) && Value(s) % 10 == d
            && '0' + d as char == s[|s| - 1]
  {
  }

  lemma {:induction false} PrintOfValue(s: string)
    requires AllDigits(s) && |s| > 0 && (|s| == 1 || s[0] != '0')
    ensures Print(Value(s)) == s
    ensures Value(s) >= 1 || |s| == 1
  {
    var init := s[..|s| - 1];
    ValueStep(s);
    if |s| > 1 {
      PrintOfValue(init);
      if |init| == 1 { ValueStep(init); assert Value(init[..0]) == 0; }
      assert Value(s) >= 10;
      assert s == init + [s[|s| - 1]];
    } else {
      assert init == "" && s == [s[0]];
    }
  }

  /** Printing undoes parsing, up to leading zeros. */
  lemma {:induction false} PrintOfValueStrips(s: string)
    requires AllDigits(s) && |s| > 0
    ensures Print(Value(s)) == StripZeros(s)
  {
    if |s| > 1 && s[0] == '0' {
      ValueOfZeroAnd(s);
      PrintOfValueStrips(s[1..]);
    } else {
      PrintOfValue(s);
    }
  }

  // ----- Derived identities -----

  function KeyInfo(index: nat): string { "rainbow-" + Print(index) }

  lemma KeyInfoInjective(i: nat, j: nat)
    requires KeyInfo(i) == KeyInfo(j)
    ensures i == j
  {
    assert KeyInfo(i)[8..] == Print(i) && KeyInfo(j)[8..] == Print(j);
    ValueOfPrint(i);
    ValueOfPrint(j);
  }

  /** The info is the fixed text followed by the index in decimal, without leading zeros. */
  lemma KeyInfoSpellsIndex(index: nat)
    ensures var s := KeyInfo(index);
            && |s| > 8 && s[..8] == "rainbow-" && AllDigits(s[8..])
            && PlaceSum(s[8..]) == index && (s[8] == '0' ==> |s| == 9)
  {
    assert KeyInfo(index)[8..] == Print(index);
    ValueOfPrint(index);
    ValueIsPlaceSum(Print(index));
    PrintHasNoLeadingZero(index);
  }

  /** The identity of the instance with this index. */
  function Identity(derive: Derive, seed: string, index: nat): Result<PeerId, Error> {
    derive(seed, KeyInfo(index))
  }

  /** Where the peer with index `i` lands in the list of an instance with index `ours`. */
  function Slot(ours: int, i: nat): int { if 0 <= ours < i then i - 1 else i }

  /** How many of the indices 0..n belong to others. */
  function Others(ours: int, n: nat): nat { if 0 <= ours < n then n - 1 else n }

  method DerivePeerIDs(derive: Derive, seed: string, ours: int, maxIndex: int)
      returns (r: Result<seq<PeerId>, Error>)
    ensures r.Success? <==> forall i: nat :: i <= maxIndex && i != ours ==> Identity(derive, seed, i).Success?
    ensures r.Success? ==> |r.value| == Others(ours, if maxIndex < 0 then 0 else maxIndex + 1)
    ensures r.Success? ==> forall i: nat :: i <= maxIndex && i != ours ==>
              0 <= Slot(ours, i) < |r.value| && Identity(derive, seed, i) == Success(r.value[Slot(ours, i)])
  {
    var ids: seq<PeerId> := [];
    var i: nat := 0;
    while i <= maxIndex
      invariant i <= maxIndex + 1 || i == 0
      invariant |ids| == Others(ours, i)
      invariant forall k: nat :: k < i && k != ours ==>
                  0 <= Slot(ours, k) < |ids| && Identity(derive, seed, k) == Success(ids[Slot(ours, k)])
    {
      if i == ours {
        i := i + 1;
        continue;
      }
      var id := derive(seed, KeyInfo(i));
      if id.Failure? {
        assert Identity(derive, seed, i).Failure?;
        return Failure(id.error);
      }
      ids := ids + [id.value];
      i := i + 1;
    }
    return Success(ids);
  }

  /**
   With a 64-bit counter the loop over the indices passes the maximum, and so
   can end without a failure, exactly when the maximum is not the largest
   integer; until then the counter is the index.
   */
  lemma IndexLoopEndsIff(maxIndex: int64)
    ensures (exists n: nat :: ToInt64(n) > maxIndex) <==> maxIndex < MAX_INT
    ensures maxIndex < MAX_INT ==> forall n: nat :: n <= maxIndex + 1 ==> ToInt64(n) == n
  {
    if maxIndex < MAX_INT {
      var past: nat := if maxIndex < 0 then 0 else maxIndex + 1;
      assert ToInt64(past) > maxIndex;
    }
  }

  /** Slots list the other indices in increasing order, without gaps. */
  lemma SlotsAreOrdered(ours: int, n: nat, i: nat, j: nat)
    requires i < n && j < n && i != ours && j != ours
    ensures Slot(ours, i) < Slot(ours, j) <==> i < j
    ensures 0 <= Slot(ours, i) < Others(ours, n)
  {
  }

  /** Every slot is taken by one of the other indices. */
  lemma SlotsAreFilled(ours: int, n: nat, k: nat)
    ensures Others(ours, n) == n - (if 0 <= ours < n then 1 else 0)
    ensures k < Others(ours, n) <==> exists i: nat :: i < n && i != ours && Slot(ours, i) == k
  {
    if k < Others(ours, n) {
      var i: nat := if 0 <= ours <= k then k + 1 else k;
      assert Slot(ours, i) == k;
    }
  }

  /** Peers handed to the peering service: those configured, then those derived from the seed. */
  method SetupPeering(derive: Derive, configured: seq<PeerId>, seedPeering: bool, seed: string, ours: int,
                      maxIndex: int)
      returns (r: Result<seq<PeerId>, Error>)
    ensures r.Success? <==> (!seedPeering || (ours >= 0 && maxIndex >= 0 &&
              forall i: nat :: i <= maxIndex && i != ours ==> Identity(derive, seed, i).Success?))
    ensures !seedPeering ==> r == Success(configured)
    ensures seedPeering && (ours < 0 || maxIndex < 0) ==> r == Failure(NegativeIndex)
    ensures r.Success? && seedPeering ==>
              && |r.value| == |configured| + Others(ours, maxIndex + 1)
              && r.value[..|configured|] == configured
              && forall i: nat :: i <= maxIndex && i != ours ==>
                   Identity(derive, seed, i) == Success(r.value[|configured| + Slot(ours, i)])
  {
    var peers := [];
    for k := 0 to |configured|
      invariant peers == configured[..k]
    {
      peers := peers + [configured[k]];
    }
    assert configured[..|configured|] == configured;
    if !seedPeering {
      return Success(peers);
    }
    if ours < 0 || maxIndex < 0 {
      return Failure(NegativeIndex);
    }
    var ids := DerivePeerIDs(derive, seed, ours, maxIndex);
    if ids.Failure? {
      return Failure(ids.error);
    }
    for k := 0 to |ids.value|
      invariant peers == configured + ids.value[..k]
    {
      peers := peers + [ids.value[k]];
    }
    return Success(peers);
  }

  // ----- Placeholders -----

  const PREFIX: string := "/p2p/rainbow-seed/"

  /** The regular expression matches at `i`. */
  predicate PlaceholderAt(s: string, i: nat) {
    i + 18 < |s| && OccursAt(s, PREFIX, i) && IsDigit(s[i + 18])
  }

  /** The end of the digits that start at `i`. */
  function DigitsEnd(s: string, i: nat): (e: nat)
    requires i <= |s|
    ensures i <= e <= |s| && AllDigits(s[i..e]) && (e < |s| ==> !IsDigit(s[e]))
    decreases |s| - i
  {
    if i < |s| && IsDigit(s[i]) then
      var e := DigitsEnd(s, i + 1);
      assert s[i..e] == [s[i]] + s[i + 1..e];
      e
    else i
  }

  /** The leftmost match at or after `from`. */
  function Search(s: string, from: nat): (r: Option<nat>)
    ensures r.Some? ==> from <= r.value && PlaceholderAt(s, r.value)
    ensures forall i: nat :: from <= i && PlaceholderAt(s, i) ==> r.Some? && r.value <= i
    decreases |s| - from
  {
    if from >= |s| then None
    else if PlaceholderAt(s, from) then Some(from)
    else Search(s, from + 1)
  }

  /** strconv.Atoi on digits: indices go up to the largest integer. */
  function Atoi(s: string): Result<nat, Error>
    requires AllDigits(s)
  {
    if Value(s) <= MAX_INT then Success(Value(s)) else Failure(OutOfRange)
  }

  /** Replaces the first match by the peer id it stands for. */
  function ReplaceSeed(derive: Derive, addr: string, seed: string): Result<string, Error> {
    match Search(addr, 0)
    case None => Success(addr)
    case Some(i) =>
      var e := DigitsEnd(addr, i + 18);
      match Atoi(addr[i + 18..e])
      case Failure(err) => Failure(err)
      case Success(index) =>
        match derive(seed, KeyInfo(index))
        case Failure(err) => Failure(err)
        case Success(id) => Success(ReplaceFirst(addr, addr[i..e], "/p2p/" + id))
  }

  lemma StartOfSlice(s: string, i: nat, j: nat, n: nat)
    requires i + n < j <= |s|
    ensures s[i..j][..n] == s[i..i + n] && s[i..j][n] == s[i + n]
  {
  }

  lemma MatchedTextIsPlaceholder(s: string, i: nat, q: nat)
    requires PlaceholderAt(s, i) && OccursAt(s, s[i..DigitsEnd(s, i + 18)], q)
    ensures PlaceholderAt(s, q)
  {
    var e := DigitsEnd(s, i + 18);
    assert e > i + 18;
    StartOfSlice(s, i, e, 18);
    StartOfSlice(s, q, q + (e - i), 18);
  }

  /** The first occurrence of the matched text is the match itself. */
  lemma MatchIsFirstOccurrence(s: string, i: nat)
    requires Search(s, 0) == Some(i)
    ensures FindFrom(s, s[i..DigitsEnd(s, i + 18)], 0) == Some(i)
  {
    var text := s[i..DigitsEnd(s, i + 18)];
    assert OccursAt(s, text, i);
    MatchedTextIsPlaceholder(s, i, FindFrom(s, text, 0).value);
  }

  /** `addr` with the text from `i` to `e` replaced by the path of peer `id`. */
  function Splice(addr: string, i: nat, e: nat, id: PeerId): string
    requires i <= e <= |addr|
  {
    addr[..i] + ("/p2p/" + id) + addr[e..]
  }

  /** The replacement is a splice at the leftmost match, over its longest run of digits. */
  lemma SplicesLeftmost(derive: Derive, addr: string, seed: string, i: nat)
    requires PlaceholderAt(addr, i) && forall j: nat :: j < i ==> !PlaceholderAt(addr, j)
    ensures var e := DigitsEnd(addr, i + 18);
            var index := Value(addr[i + 18..e]);
            ReplaceSeed(derive, addr, seed) ==
            if index > MAX_INT then Failure(OutOfRange)
            else match Identity(derive, seed, index)
                 case Failure(err) => Failure(err)
                 case Success(id) => Success(Splice(addr, i, e, id))
  {
    assert Search(addr, 0) == Some(i);
    MatchIsFirstOccurrence(addr, i);
    var e := DigitsEnd(addr, i + 18);
    assert i + |addr[i..e]| == e;
  }

  lemma NoMatchNoChange(derive: Derive, addr: string, seed: string)
    requires forall i: nat :: !PlaceholderAt(addr, i)
    ensures ReplaceSeed(derive, addr, seed) == Success(addr)
  {
  }

  // ----- Counting placeholders -----

  /** How many placeholders start at or after `from`. */
  function Count(s: string, from: nat): nat
    decreases |s| - from
  {
    if from >= |s| then 0 else (if PlaceholderAt(s, from) then 1 else 0) + Count(s, from + 1)
  }

  lemma {:induction false} CountSkips(s: string, a: nat, b: nat)
    requires a <= b && forall j :: a <= j < b ==> !PlaceholderAt(s, j)
    ensures Count(s, a) == Count(s, b)
    decreases b - a
  {
    if a < b { CountSkips(s, a + 1, b); }
  }

  lemma PlaceholderShifts(s: string, a: nat, t: string, b: nat)
    requires a < |s| && b < |t| && s[a..] == t[b..]
    ensures PlaceholderAt(s, a) <==> PlaceholderAt(t, b)
    ensures s[a + 1..] == t[b + 1..]
  {
    assert s[a + 1..] == s[a..][1..] && t[b + 1..] == t[b..][1..];
    assert |s| - a == |t| - b;
    if a + 18 < |s| {
      assert s[a..a + 18] == s[a..][..18] && t[b..b + 18] == t[b..][..18];
      assert s[a + 18] == s[a..][18] && t[b + 18] == t[b..][18];
    }
  }

  lemma {:induction false} CountDependsOnSuffix(s: string, a: nat, t: string, b: nat)
    requires a <= |s| && b <= |t| && s[a..] == t[b..]
    ensures Count(s, a) == Count(t, b)
    decreases |s| - a
  {
    assert |s| - a == |t| - b;
    if a < |s| {
      PlaceholderShifts(s, a, t, b);
      CountDependsOnSuffix(s, a + 1, t, b + 1);
    }
  }

  lemma {:induction false} CountZeroIff(s: string, from: nat)
    ensures Count(s, from) == 0 <==> forall i: nat :: from <= i ==> !PlaceholderAt(s, i)
    decreases |s| - from
  {
    if from < |s| {
      CountZeroIff(s, from + 1);
    }
  }

  /** The characters of a placeholder. */
  lemma PlaceholderChars(s: string, i: nat)
    requires PlaceholderAt(s, i)
    ensures forall p :: i <= p < i + 18 ==> s[p] == PREFIX[p - i]
  {
    forall p | i <= p < i + 18 ensures s[p] == PREFIX[p - i] { assert s[p] == s[i..i + 18][p - i]; }
  }

  /** One wrong character rules a placeholder out. */
  lemma Mismatch(s: string, i: nat, k: nat)
    requires k < 18 && i + k < |s| && s[i + k] != PREFIX[k]
    ensures !PlaceholderAt(s, i)
  {
    if i + 18 < |s| { assert s[i + k] == s[i..i + 18][k]; }
  }

  lemma NoneInsideMatch(s: string, i: nat, j: nat)
    requires PlaceholderAt(s, i) && i < j < DigitsEnd(s, i + 18)
    ensures !PlaceholderAt(s, j)
  {
    var e := DigitsEnd(s, i + 18);
    PlaceholderChars(s, i);
    if j >= i + 18 {
      assert IsDigit(s[i + 18..e][j - (i + 18)]);
      Mismatch(s, j, 0);
    } else if j == i + 4 || j == i + 17 {
      assert s[j + 1] == if j == i + 4 then PREFIX[5] else s[i + 18];
      Mismatch(s, j, 1);
    } else {
      assert s[j] == PREFIX[j - i];
      Mismatch(s, j, 0);
    }
  }

  /** The base58 alphabet, which peer ids are written in. */
  predicate IsBase58(c: char) {
    || '1' <= c <= '9'
    || ('A' <= c <= 'Z' && c != 'I' && c != 'O')
    || ('a' <= c <= 'z' && c != 'l')
  }

  predicate AllBase58(id: PeerId) { forall k :: 0 <= k < |id| ==> IsBase58(id[k]) }

  predicate IsPeerId(id: PeerId) { |id| >= 8 && AllBase58(id) }

  /** A placeholder that ends before `i + 5` lies in the part of the address a splice at `i` keeps. */
  lemma NoneBeforeSplice(addr: string, i: nat, id: PeerId, j: nat)
    requires PlaceholderAt(addr, i) && !PlaceholderAt(addr, j) && j + 18 < i + 5
    ensures !PlaceholderAt(Splice(addr, i, DigitsEnd(addr, i + 18), id), j)
  {
    var s := Splice(addr, i, DigitsEnd(addr, i + 18), id);
    PlaceholderChars(addr, i);
    assert forall p :: i <= p < i + 5 ==> s[p] == "/p2p/"[p - i] == addr[p];
    assert addr[..i + 5] == s[..i + 5];
    assert s[j..j + 18] == s[..i + 5][j..j + 18] && addr[j..j + 18] == addr[..i + 5][j..j + 18];
    assert s[j + 18] == s[..i + 5][j + 18] && addr[j + 18] == addr[..i + 5][j + 18];
  }

  /** No placeholder starts before the end of the spliced id, but for the starts of its path and of its name. */
  lemma NoneInSplice(addr: string, i: nat, id: PeerId, j: nat)
    requires PlaceholderAt(addr, i) && !(j < i && PlaceholderAt(addr, j))
    requires AllBase58(id) && j < i + 5 + |id| && j != i && j != i + 4
    ensures !PlaceholderAt(Splice(addr, i, DigitsEnd(addr, i + 18), id), j)
  {
    var s := Splice(addr, i, DigitsEnd(addr, i + 18), id);
    assert s[i] == '/' && s[i + 1] == 'p' && s[i + 2] == '2' && s[i + 3] == 'p' && s[i + 4] == '/';
    assert forall k :: i + 5 <= k < i + 5 + |id| ==> s[k] == id[k - i - 5];
    if j + 18 < i + 5 {
      NoneBeforeSplice(addr, i, id, j);
    } else if j == i - 4 {
      Mismatch(s, j, 5);
    } else if j < i {
      Mismatch(s, j, i - j);
    } else {
      Mismatch(s, j, 0);
    }
  }

  /** `id` and the start of `rest` together spell `word`, with a digit behind it. */
  predicate Spells(id: string, rest: string, word: string) {
    && |id| < |word| < |id| + |rest|
    && id == word[..|id|]
    && rest[..|word| - |id|] == word[|id|..]
    && IsDigit(rest[|word| - |id|])
  }

  /** A word with a slash at its end, found in a base58 id and what follows, reaches beyond the id. */
  lemma SpellsIff(id: string, rest: string, word: string)
    requires AllBase58(id) && |word| > 0 && word[|word| - 1] == '/'
    ensures Spells(id, rest, word) <==>
            |word| < |id + rest| && (id + rest)[..|word|] == word && IsDigit((id + rest)[|word|])
  {
    var n := |word|;
    if n < |id + rest| && (id + rest)[..n] == word {
      assert (id + rest)[n - 1] == (id + rest)[..n][n - 1] == '/';
      assert |id| < n;
      assert (id + rest)[..n] == id + rest[..n - |id|];
      assert word[..|id|] == id && word[|id|..] == rest[..n - |id|];
    }
    if Spells(id, rest, word) {
      assert word == word[..|id|] + word[|id|..];
      assert (id + rest)[..n] == id + rest[..n - |id|];
    }
  }

  /** Whether a placeholder starts somewhere depends on what follows alone. */
  lemma PlaceholderInTail(s: string, i: nat)
    requires i <= |s|
    ensures PlaceholderAt(s, i) <==> 18 < |s[i..]| && s[i..][..18] == PREFIX && IsDigit(s[i..][18])
  {
    if i + 18 < |s| { assert s[i..][..18] == s[i..i + 18]; }
  }

  /** A placeholder behind a known start is one its remaining word spells. */
  lemma PlaceholderSpelled(s: string, i: nat, start: string, id: PeerId, rest: string, word: string)
    requires i <= |s| && s[i..] == start + (id + rest)
    requires start + word == PREFIX && |word| > 0 && AllBase58(id)
    ensures PlaceholderAt(s, i) <==> Spells(id, rest, word)
  {
    var tail := id + rest;
    assert |start| + |word| == 18;
    assert word[|word| - 1] == (start + word)[17] == PREFIX[17];
    PlaceholderInTail(s, i);
    SpellsIff(id, rest, word);
    if |word| < |tail| {
      assert (start + tail)[..18] == start + tail[..|word|];
      assert (start + tail)[18] == tail[|word|];
      assert start + tail[..|word|] == PREFIX <==> tail[..|word|] == word by {
        assert (start + tail[..|word|])[|start|..] == tail[..|word|] && PREFIX[|start|..] == word;
      }
    }
  }

  /** What is left of a placeholder when its path, or the slash before an id, is taken away. */
  const SEED_WORD: string := "rainbow-seed/"
  const PATH_WORD: string := "p2p/rainbow-seed/"

  /** The id and the text behind it complete a placeholder that starts with the id's path or its slash. */
  predicate SpellsPlaceholder(id: PeerId, rest: string) {
    Spells(id, rest, SEED_WORD) || Spells(id, rest, PATH_WORD)
  }

  lemma SplicedPlaceholders(addr: string, i: nat, e: nat, id: PeerId)
    requires i <= e <= |addr| && AllBase58(id)
    ensures var s := Splice(addr, i, e, id);
            && (PlaceholderAt(s, i) <==> Spells(id, addr[e..], SEED_WORD))
            && (PlaceholderAt(s, i + 4) <==> Spells(id, addr[e..], PATH_WORD))
  {
    var s, rest := Splice(addr, i, e, id), addr[e..];
    assert s[i..] == "/p2p/" + (id + rest);
    assert s[i + 4..] == s[i..][4..] == "/" + (id + rest);
    assert "/p2p/" + SEED_WORD == PREFIX && "/" + PATH_WORD == PREFIX;
    PlaceholderSpelled(s, i, "/p2p/", id, rest, SEED_WORD);
    PlaceholderSpelled(s, i + 4, "/", id, rest, PATH_WORD);
  }

  lemma SpelledChar(id: PeerId, rest: string, word: string, k: nat)
    requires Spells(id, rest, word) && k < |word|
    ensures (id + rest)[k] == word[k]
  {
    assert word[k] == if k < |id| then word[..|id|][k] else word[|id|..][k - |id|];
  }

  /** The two words start differently. */
  lemma SpellsOneWord(id: PeerId, rest: string)
    ensures !(Spells(id, rest, SEED_WORD) && Spells(id, rest, PATH_WORD))
  {
    if Spells(id, rest, SEED_WORD) { SpelledChar(id, rest, SEED_WORD, 0); }
    if Spells(id, rest, PATH_WORD) { SpelledChar(id, rest, PATH_WORD, 0); }
  }

  lemma SpliceCount(addr: string, i: nat, id: PeerId)
    requires PlaceholderAt(addr, i) && forall j: nat :: j < i ==> !PlaceholderAt(addr, j)
    requires AllBase58(id)
    ensures var e := DigitsEnd(addr, i + 18);
            Count(Splice(addr, i, e, id), 0) == Count(addr, 0) - (if SpellsPlaceholder(id, addr[e..]) then 0 else 1)
  {
    var e := DigitsEnd(addr, i + 18);
    var s := Splice(addr, i, e, id);
    var rest := i + 5 + |id|;
    forall j: nat | j < rest && j != i && j != i + 4 ensures !PlaceholderAt(s, j) { NoneInSplice(addr, i, id, j); }
    forall j: nat | i < j < e ensures !PlaceholderAt(addr, j) { NoneInsideMatch(addr, i, j); }
    CountSkips(s, 0, i);
    CountSkips(s, i + 1, i + 4);
    CountSkips(s, i + 5, rest);
    CountSkips(addr, 0, i);
    CountSkips(addr, i + 1, e);
    assert s[rest..] == addr[e..];
    CountDependsOnSuffix(s, rest, addr, e);
    SplicedPlaceholders(addr, i, e, id);
    SpellsOneWord(id, addr[e..]);
  }

  /** A long id spells neither word: it would contain a dash or a slash. */
  lemma LongIdsSpellNothing(id: PeerId, rest: string)
    requires IsPeerId(id)
    ensures !SpellsPlaceholder(id, rest)
  {
    if Spells(id, rest, SEED_WORD) { SpelledChar(id, rest, SEED_WORD, 7); }
    if Spells(id, rest, PATH_WORD) { SpelledChar(id, rest, PATH_WORD, 3); }
  }

  ghost predicate DerivesBase58(derive: Derive, seed: string) {
    forall info: string :: derive(seed, info).Success? ==> AllBase58(derive(seed, info).value)
  }

  /** Every id derived is a peer id. */
  ghost predicate DerivesPeerIds(derive: Derive, seed: string) {
    forall info: string :: derive(seed, info).Success? ==> IsPeerId(derive(seed, info).value)
  }

  /**
   A successful replacement uses up one placeholder exactly when the id and the
   text behind the match do not complete another one; otherwise as many are left.
   */
  lemma ReplacementDropsOneIff(derive: Derive, addr: string, seed: string)
    requires DerivesBase58(derive, seed)
    requires Count(addr, 0) > 0 && ReplaceSeed(derive, addr, seed).Success?
    ensures Search(addr, 0).Some?
    ensures var i := Search(addr, 0).value;
            var e := DigitsEnd(addr, i + 18);
            var id := Identity(derive, seed, Value(addr[i + 18..e]));
            && id.Success?
            && Count(ReplaceSeed(derive, addr, seed).value, 0)
               == Count(addr, 0) - (if SpellsPlaceholder(id.value, addr[e..]) then 0 else 1)
  {
    CountZeroIff(addr, 0);
    var i := Search(addr, 0).value;
    SplicesLeftmost(derive, addr, seed, i);
    var id := Identity(derive, seed, Value(addr[i + 18..DigitsEnd(addr, i + 18)]));
    SpliceCount(addr, i, id.value);
  }

  /** With real ids every successful replacement uses up exactly one placeholder. */
  lemma ReplacementDropsOne(derive: Derive, addr: string, seed: string)
    requires DerivesPeerIds(derive, seed)
    requires Count(addr, 0) > 0 && ReplaceSeed(derive, addr, seed).Success?
    ensures Count(ReplaceSeed(derive, addr, seed).value, 0) == Count(addr, 0) - 1
  {
    ReplacementDropsOneIff(derive, addr, seed);
    var i := Search(addr, 0).value;
    var e := DigitsEnd(addr, i + 18);
    LongIdsSpellNothing(Identity(derive, seed, Value(addr[i + 18..e])).value, addr[e..]);
  }

  /** An address with one placeholder is settled by one replacement. */
  lemma SinglePlaceholderSettles(derive: Derive, addr: string, seed: string)
    requires DerivesPeerIds(derive, seed)
    requires Count(addr, 0) <= 1 && ReplaceSeed(derive, addr, seed).Success?
    ensures var s := ReplaceSeed(derive, addr, seed).value; ReplaceSeed(derive, s, seed) == Success(s)
  {
    var s := ReplaceSeed(derive, addr, seed).value;
    CountZeroIff(addr, 0);
    if Count(addr, 0) == 1 { ReplacementDropsOne(derive, addr, seed); }
    CountZeroIff(s, 0);
  }

  lemma OneDigitPlaceholder(d: char, rest: string)
    requires IsDigit(d) && |rest| < 18 && (rest == "" || !IsDigit(rest[0]))
    ensures var s := PREFIX + [d] + rest;
            PlaceholderAt(s, 0) && DigitsEnd(s, 18) == 19 && s[18..19] == [d] && s[19..] == rest && Count(s, 0) == 1
  {
    var s := PREFIX + [d] + rest;
    assert s[0..18] == PREFIX && s[18..19] == [d];
    DigitsEndIs(s, 18, 19);
    forall j: nat | 1 <= j ensures !PlaceholderAt(s, j) {
      if j < 19 { NoneInsideMatch(s, 0, j); }
    }
    CountZeroIff(s, 1);
  }

  /** Ids of seven and of three characters that spell a placeholder, each by one of the two words. */
  lemma ShortIdsSpell()
    ensures AllBase58("rainbow") && Spells("rainbow", "-seed/5", SEED_WORD)
    ensures AllBase58("p2p") && Spells("p2p", "/rainbow-seed/5", PATH_WORD)
  {
    assert SEED_WORD[..7] == "rainbow" && SEED_WORD[7..] == "-seed/" == "-seed/5"[..6];
    assert PATH_WORD[..3] == "p2p" && PATH_WORD[3..] == "/rainbow-seed/" == "/rainbow-seed/5"[..14];
  }

  /** Two addresses with one placeholder each that still have one after a successful replacement. */
  lemma ShortIdsLeavePlaceholders(derive: Derive, seed: string, id: PeerId, rest: string)
    requires (id == "rainbow" && rest == "-seed/5") || (id == "p2p" && rest == "/rainbow-seed/5")
    requires Identity(derive, seed, 0) == Success(id)
    ensures var addr := PREFIX + "0" + rest;
            && Count(addr, 0) == 1
            && ReplaceSeed(derive, addr, seed).Success? && Count(ReplaceSeed(derive, addr, seed).value, 0) == 1
  {
    var addr := PREFIX + "0" + rest;
    OneDigitPlaceholder('0', rest);
    ShortIdsSpell();
    ValueStep("0");
    SplicesLeftmost(derive, addr, seed, 0);
    SpliceCount(addr, 0, id);
  }

  // ----- Placeholders name instances -----

  function Zeros(n: nat): (s: string)
    ensures |s| == n && AllDigits(s)
  {
    if n == 0 then "" else "0" + Zeros(n - 1)
  }

  lemma ZerosStep(z: nat, s: string)
    requires z > 0
    ensures (Zeros(z) + s)[0] == '0' && (Zeros(z) + s)[1..] == Zeros(z - 1) + s
  {
    assert Zeros(z) == "0" + Zeros(z - 1);
  }

  lemma {:induction false} LeadingZeros(z: nat, s: string)
    requires AllDigits(s) && |s| > 0
    ensures Value(Zeros(z) + s) == Value(s)
  {
    if z == 0 {
      assert Zeros(0) + s == s;
    } else {
      ZerosStep(z, s);
      ValueOfZeroAnd(Zeros(z) + s);
      LeadingZeros(z - 1, s);
    }
  }

  lemma {:induction false} DigitsEndIs(s: string, i: nat, e: nat)
    requires i <= e <= |s| && AllDigits(s[i..e]) && (e < |s| ==> !IsDigit(s[e]))
    ensures DigitsEnd(s, i) == e
    decreases e - i
  {
    if i < e {
      assert s[i] == s[i..e][0];
      assert s[i + 1..e] == s[i..e][1..];
      DigitsEndIs(s, i + 1, e);
    }
  }

  /** An address that names instance `n`, in any number of leading zeros, between `before` and `after`. */
  function Naming(before: string, zeros: nat, n: nat, after: string): string {
    before + PREFIX + (Zeros(zeros) + Print(n)) + after
  }

  /** The placeholder of index `n` becomes the id the instance with index `n` derives for itself. */
  lemma PlaceholderNamesInstance(derive: Derive, seed: string, before: string, zeros: nat, n: nat, after: string)
    requires n <= MAX_INT && Identity(derive, seed, n).Success?
    requires after == "" || !IsDigit(after[0])
    requires forall j: nat :: j < |before| ==> !PlaceholderAt(Naming(before, zeros, n, after), j)
    ensures ReplaceSeed(derive, Naming(before, zeros, n, after), seed)
            == Success(before + ("/p2p/" + Identity(derive, seed, n).value) + after)
  {
    var addr := Naming(before, zeros, n, after);
    var digits := Zeros(zeros) + Print(n);
    var i := |before|;
    var e := i + 18 + |digits|;
    assert addr[i..i + 18] == PREFIX && addr[i + 18..e] == digits && addr[e..] == after && addr[..i] == before;
    assert addr[i + 18] == digits[0];
    DigitsEndIs(addr, i + 18, e);
    LeadingZeros(zeros, Print(n));
    ValueOfPrint(n);
    SplicesLeftmost(derive, addr, seed, i);
  }

  // ----- The configured peering addresses -----

  /** Replaces placeholders when this instance has an index of its own, and refuses them otherwise. */
  method PeeringAddrs(derive: Derive, list: seq<string>, seed: string, index: int)
      returns (r: Result<seq<string>, Error>)
    ensures |seed| > 0 && index >= 0 ==>
              && (r.Success? <==> forall k :: 0 <= k < |list| ==> ReplaceSeed(derive, list[k], seed).Success?)
              && (r.Success? ==> |r.value| == |list| && forall k :: 0 <= k < |list| ==>
                    ReplaceSeed(derive, list[k], seed) == Success(r.value[k]))
    ensures |seed| == 0 || index < 0 ==>
              r == if forall k :: 0 <= k < |list| ==> Count(list[k], 0) == 0 then Success(list)
                   else Failure(MissingIndex)
  {
    var addrs := [];
    for k := 0 to |list|
      invariant |addrs| == k
      invariant |seed| > 0 && index >= 0 ==>
                  forall j :: 0 <= j < k ==> ReplaceSeed(derive, list[j], seed) == Success(addrs[j])
      invariant |seed| == 0 || index < 0 ==>
                  addrs == list[..k] && forall j :: 0 <= j < k ==> Count(list[j], 0) == 0
    {
      var addr := list[k];
      if |seed| > 0 && index >= 0 {
        var replaced := ReplaceSeed(derive, addr, seed);
        if replaced.Failure? {
          return Failure(replaced.error);
        }
        addr := replaced.value;
      } else {
        CountZeroIff(addr, 0);
        if Search(addr, 0).Some? {
          return Failure(MissingIndex);
        }
      }
      addrs := addrs + [addr];
    }
    assert list[..|list|] == list;
    return Success(addrs);
  }
}
