/**
 * Inference of the next project number (instantiate.py:17-56).
 *
 * A working directory is modelled by its listing: one `DirEntry` per child,
 * giving the child's name and whether it is a directory. Digits are the
 * ASCII characters '0' to '9'.
 */
module Numbering {
  import opened Results

  /** One child of the working directory. */
  datatype DirEntry = DirEntry(name: string, isDir: bool)

  /** `int()` was given an empty prefix: with width 0 every directory qualifies. */
  datatype NumberError = EmptyPrefix(directory: string)

  predicate IsDigit(c: char) {
    '0' <= c <= '9'
  }

  function DigitValue(c: char): (d: nat)
    requires IsDigit(c)
    ensures d < 10
  {
    c as int - '0' as int
  }

  function DigitChar(d: nat): (c: char)
    requires d < 10
    ensures IsDigit(c) && DigitValue(c) == d
  {
    ('0' as int + d) as char
  }

  function Pow10(k: nat): (p: nat)
    ensures p >= 1
  {
    if k == 0 then 1 else 10 * Pow10(k - 1)
  }

  /** Every character of `s` is a digit. */
  function AllDigits(s: string): (b: bool)
    ensures b <==> forall i :: 0 <= i < |s| ==> IsDigit(s[i])
  {
    |s| == 0 || (IsDigit(s[0]) && AllDigits(s[1..]))
  }

  /** `_starts_with_k_digits`: the name is at least `k` long and its first `k` characters are digits. */
  function StartsWithKDigits(s: string, k: nat): (b: bool)
    ensures b <==> |s| >= k && forall i :: 0 <= i < k ==> IsDigit(s[i])
  {
    if |s| < k then false else AllDigits(s[..k])
  }

  /** The value of a string of decimal digits, most significant first. */
  function ParseDigits(s: string): (n: nat)
    requires AllDigits(s)
    ensures n < Pow10(|s|)
  {
    if s == [] then 0 else 10 * ParseDigits(s[..|s| - 1]) + DigitValue(s[|s| - 1])
  }

  /** `int(prefix)` on a prefix made of digits: it fails exactly on the empty string. */
  function ParseInt(s: string): (r: Option<nat>)
    requires AllDigits(s)
    ensures r.None? <==> s == []
    ensures r.Some? ==> r.value < Pow10(|s|)
  {
    if s == [] then None else Some(ParseDigits(s))
  }

  /** The decimal representation of `n`, without leading zeros. */
  function Decimal(n: nat): (s: string)
    ensures 1 <= |s| && AllDigits(s) && ParseDigits(s) == n
    ensures |s| > 1 ==> s[0] != '0'
  {
    if n < 10 then [DigitChar(n)]
    else
      var init := Decimal(n / 10);
      var s := init + [DigitChar(n % 10)];
      assert s[..|s| - 1] == init;
      s
  }

  function Zeros(m: nat): (z: string)
    ensures |z| == m && forall i :: 0 <= i < m ==> z[i] == '0'
  {
    if m == 0 then [] else Zeros(m - 1) + ['0']
  }

  /** `format(n, "0" + str(k))`: the decimal digits of `n`, left-padded with zeros to width `k`. */
  function Format(n: nat, k: nat): (s: string)
    ensures AllDigits(s)
    ensures |s| == if |Decimal(n)| < k then k else |Decimal(n)|
    ensures ParseDigits(s) == n
  {
    var d := Decimal(n);
    if |d| >= k then d
    else
      LeadingZeros(k - |d|, d);
      Zeros(k - |d|) + d
  }

  lemma {:induction false} LeadingZeros(m: nat, s: string)
    requires AllDigits(s)
    ensures AllDigits(Zeros(m) + s) && ParseDigits(Zeros(m) + s) == ParseDigits(s)
    decreases |s|, m
  {
    var z := Zeros(m);
    if s == [] {
      assert z + s == z;
      if m > 0 {
        assert z[..m - 1] == Zeros(m - 1);
        LeadingZeros(m - 1, s);
        assert Zeros(m - 1) + s == Zeros(m - 1);
      }
    } else {
      var init := s[..|s| - 1];
      assert (z + s)[..|z + s| - 1] == z + init;
      LeadingZeros(m, init);
    }
  }

  /** For a positive width, `n` has at most `k` digits exactly when it is below 10^k. */
  lemma {:induction false} DecimalLength(n: nat, k: nat)
    requires k >= 1
    ensures |Decimal(n)| <= k <==> n < Pow10(k)
  {
    if n >= 10 {
      assert |Decimal(n)| == |Decimal(n / 10)| + 1;
      if k > 1 {
        DecimalLength(n / 10, k - 1);
      } else {
        assert Pow10(1) == 10;
      }
    } else {
      PowAtLeastTen(k);
    }
  }

  lemma {:induction false} PowAtLeastTen(k: nat)
    requires k >= 1
    ensures Pow10(k) >= 10
  {
    if k > 1 {
      PowAtLeastTen(k - 1);
    }
  }

  /** A directory whose name starts with `k` digits takes part in the inference. */
  predicate Qualifies(e: DirEntry, k: nat) {
    e.isDir && StartsWithKDigits(e.name, k)
  }

  /** The number a qualifying directory contributes: its `k`-digit prefix read in base ten. */
  function PrefixValue(e: DirEntry, k: nat): (v: nat)
    requires Qualifies(e, k)
    ensures v < Pow10(k)
  {
    ParseDigits(e.name[..k])
  }

  /**
   * `[int(d.name[:k]) for d in numbered_directories]`: the prefix values of the
   * qualifying directories, in listing order, or the failure of `int` on an
   * empty prefix.
   */
  function PrefixNumbers(listing: seq<DirEntry>, k: nat): (r: Result<seq<nat>, NumberError>)
    ensures r.Failure? <==> k == 0 && exists i :: 0 <= i < |listing| && listing[i].isDir
    ensures r.Success? ==> forall v :: v in r.value <==>
      exists i :: 0 <= i < |listing| && Qualifies(listing[i], k) && PrefixValue(listing[i], k) == v
  {
    if listing == [] then Success([])
    else
      var e := listing[0];
      var rest := PrefixNumbers(listing[1..], k);
      assert forall i :: 1 <= i < |listing| ==> listing[i] == listing[1..][i - 1];
      if Qualifies(e, k) then
        match ParseInt(e.name[..k])
        case None => Failure(EmptyPrefix(e.name))
        case Some(v) =>
          match rest
          case Failure(err) => Failure(err)
          case Success(vs) => Success([v] + vs)
      else rest
  }

  function SeqMax(s: seq<nat>): (m: nat)
    requires s != []
    ensures m in s && forall i :: 0 <= i < |s| ==> s[i] <= m
  {
    if |s| == 1 then s[0]
    else
      var m := SeqMax(s[1..]);
      assert forall i :: 1 <= i < |s| ==> s[i] == s[1..][i - 1];
      if s[0] > m then s[0] else m
  }

  /** `1` when there are no numbers, else `max(numbers) + 1`. */
  function NextNumber(numbers: seq<nat>): (n: nat)
    ensures forall i :: 0 <= i < |numbers| ==> numbers[i] < n
    ensures if numbers == [] then n == 1 else n - 1 in numbers
  {
    if numbers == [] then 1 else SeqMax(numbers) + 1
  }

  /**
   * `infer_next_project_number(path, k)`: `None` when numbering is off,
   * otherwise the next number formatted to width `k`.
   */
  function InferNextProjectNumber(listing: seq<DirEntry>, k: Option<nat>): (r: Result<Option<string>, NumberError>)
    ensures k.None? ==> r == Success(None)
    ensures r.Success? && k.Some? ==> r.value.Some? && AllDigits(r.value.value) && |r.value.value| >= k.value
  {
    if k.None? then Success(None)
    else
      match PrefixNumbers(listing, k.value)
      case Failure(err) => Failure(err)
      case Success(numbers) => Success(Some(Format(NextNumber(numbers), k.value)))
  }

  /** The directories of a listing, in order. */
  function Directories(listing: seq<DirEntry>): (ds: seq<DirEntry>)
    ensures forall e :: e in ds <==> e in listing && e.isDir
  {
    if listing == [] then []
    else if listing[0].isDir then [listing[0]] + Directories(listing[1..])
    else Directories(listing[1..])
  }

  // ---------------------------------------------------------------------------
  // Properties of the inference
  // ---------------------------------------------------------------------------

  /** With numbering off the result is `None` whatever the directory holds. */
  lemma {:induction false} DisabledIgnoresListing(a: seq<DirEntry>, b: seq<DirEntry>)
    ensures InferNextProjectNumber(a, None) == InferNextProjectNumber(b, None) == Success(None)
  {
  }

  /** Width 0 makes `int('')` fail as soon as the directory contains a directory. */
  lemma {:induction false} ZeroWidthFails(listing: seq<DirEntry>)
    ensures InferNextProjectNumber(listing, Some(0)).Failure? <==>
      exists i :: 0 <= i < |listing| && listing[i].isDir
  {
  }

  /** Files never influence the result, whatever their names. */
  lemma {:induction false} FilesIgnored(listing: seq<DirEntry>, k: Option<nat>)
    ensures InferNextProjectNumber(listing, k) == InferNextProjectNumber(Directories(listing), k)
  {
    if k.Some? {
      PrefixNumbersOfDirectories(listing, k.value);
    }
  }

  lemma {:induction false} PrefixNumbersOfDirectories(listing: seq<DirEntry>, k: nat)
    ensures PrefixNumbers(listing, k) == PrefixNumbers(Directories(listing), k)
  {
    if listing != [] {
      PrefixNumbersOfDirectories(listing[1..], k);
      if listing[0].isDir {
        assert ([listing[0]] + Directories(listing[1..]))[1..] == Directories(listing[1..]);
      }
    }
  }

  /**
   * For a positive width the inference succeeds, and the number it yields is
   * one more than the largest qualifying prefix, or 1 if no directory qualifies.
   */
  lemma {:induction false} NextIsMaxPlusOne(listing: seq<DirEntry>, k: nat)
    requires k >= 1
    ensures var r := InferNextProjectNumber(listing, Some(k));
      r.Success? && r.value.Some? &&
      var n := ParseDigits(r.value.value);
      (forall i :: 0 <= i < |listing| && Qualifies(listing[i], k) ==> PrefixValue(listing[i], k) < n) &&
      ((exists i :: 0 <= i < |listing| && Qualifies(listing[i], k)) ==>
        exists i :: 0 <= i < |listing| && Qualifies(listing[i], k) && PrefixValue(listing[i], k) == n - 1) &&
      ((forall i :: 0 <= i < |listing| ==> !Qualifies(listing[i], k)) ==> r.value.value == Zeros(k - 1) + "1")
  {
    var numbers := PrefixNumbers(listing, k).value;
    var n := NextNumber(numbers);
    forall i | 0 <= i < |listing| && Qualifies(listing[i], k)
      ensures PrefixValue(listing[i], k) < n
    {
      var v := PrefixValue(listing[i], k);
      assert v in numbers;
      var j :| 0 <= j < |numbers| && numbers[j] == v;
    }
    if forall i :: 0 <= i < |listing| ==> !Qualifies(listing[i], k) {
      assert Decimal(1) == "1";
    }
  }

  /** The next number is at most 10^k: every `k`-digit prefix is below 10^k. */
  lemma {:induction false} NextAtMostPow10(listing: seq<DirEntry>, k: nat)
    requires k >= 1
    ensures PrefixNumbers(listing, k).Success?
    ensures NextNumber(PrefixNumbers(listing, k).value) <= Pow10(k)
  {
    var numbers := PrefixNumbers(listing, k).value;
    var n := NextNumber(numbers);
    if numbers == [] {
      PowAtLeastTen(k);
    } else {
      var i :| 0 <= i < |listing| && Qualifies(listing[i], k) && PrefixValue(listing[i], k) == n - 1;
    }
  }

  /**
   * The formatted number is at least `k` digits wide; it is wider only when the
   * largest prefix was 10^k - 1, in which case the number is 10^k.
   */
  lemma {:induction false} Width(listing: seq<DirEntry>, k: nat)
    requires k >= 1
    ensures InferNextProjectNumber(listing, Some(k)).Success? && InferNextProjectNumber(listing, Some(k)).value.Some?
    ensures var s := InferNextProjectNumber(listing, Some(k)).value.value;
      |s| >= k && ParseDigits(s) <= Pow10(k)
    ensures var s := InferNextProjectNumber(listing, Some(k)).value.value;
      |s| > k <==> ParseDigits(s) == Pow10(k)
    ensures var s := InferNextProjectNumber(listing, Some(k)).value.value;
      |s| > k ==> |s| == k + 1
  {
    NextAtMostPow10(listing, k);
    var s := InferNextProjectNumber(listing, Some(k)).value.value;
    var n := NextNumber(PrefixNumbers(listing, k).value);
    assert s == Format(n, k) && ParseDigits(s) == n;
    DecimalLength(n, k);
    if |s| > k {
      DecimalLength(n, k + 1);
      assert n < Pow10(k + 1);
    }
  }

  /** `k = 3` in a directory with nothing numbered yields "001". */
  lemma {:induction false} FirstNumberExample()
    ensures InferNextProjectNumber([], Some(3)) == Success(Some("001"))
    ensures InferNextProjectNumber([DirEntry("notes.txt", false), DirEntry("lib", true)], Some(3)) == Success(Some("001"))
  {
    assert Decimal(1) == "1";
    assert Zeros(2) == "00";
    assert Format(1, 3) == "00" + "1" == "001";
    assert PrefixNumbers([DirEntry("notes.txt", false), DirEntry("lib", true)], 3) == Success([]);
  }
}
