/** Request parameter checks (requestengine/utils.go): the validator address
    prefix test and the id test built on `strconv.Atoi`. */
module Validation {
  import opened Results
  import opened Strings
  import opened Decimal
  import Governance

  /** The bech32 human-readable prefix of Canto validator operator addresses. */
  const BECH32_PREFIX_VAL_ADDR: string := "cantovaloper"

  const INVALID_ADDRESS_ERROR: string := "invalid bech32 validator address: "
  const INVALID_ID_ERROR: string := "invalid id: "

  /** The `NumError.Err` texts of `strconv`. */
  const SYNTAX_ERROR: string := "invalid syntax"
  const RANGE_ERROR: string := "value out of range"

  /** `CheckValidatorAddress`: only the prefix is checked, not the bech32
      checksum. */
  function CheckValidatorAddress(address: string): (o: Outcome)
    ensures o.Pass? <==> StartsWith(address, BECH32_PREFIX_VAL_ADDR)
    ensures o.Fail? ==> o.error == INVALID_ADDRESS_ERROR + address
  {
    if !StartsWith(address, BECH32_PREFIX_VAL_ADDR) then Fail(INVALID_ADDRESS_ERROR + address) else Pass
  }

  /** Anything behind the prefix passes; a bare address of another chain does not. */
  lemma ValidatorAddressExamples(rest: string)
    ensures CheckValidatorAddress(BECH32_PREFIX_VAL_ADDR + rest).Pass?
    ensures CheckValidatorAddress("cantovalope").Fail?
    ensures CheckValidatorAddress("cosmosvaloper1abc").Fail?
  {
    assert (BECH32_PREFIX_VAL_ADDR + rest)[..|BECH32_PREFIX_VAL_ADDR|] == BECH32_PREFIX_VAL_ADDR;
    assert "cosmosvaloper1abc"[..|BECH32_PREFIX_VAL_ADDR|] != BECH32_PREFIX_VAL_ADDR by {
      assert "cosmosvaloper1abc"[1] != BECH32_PREFIX_VAL_ADDR[1];
    }
  }

  /** The strings `strconv.Atoi` accepts on a 64-bit platform. */
  predicate AtoiAccepts(s: string) {
    IsAtoiSyntax(s) && InInt64(SignedValue(s))
  }

  /** Prefixes of a digit string never denote more than the whole string. */
  lemma {:induction false} DigitsValuePrefix(s: string, i: nat)
    requires AllDigits(s) && i <= |s|
    ensures AllDigits(s[..i])
    ensures DigitsValue(s[..i]) <= DigitsValue(s)
    decreases |s| - i
  {
    if i < |s| {
      DigitsValuePrefix(s, i + 1);
      assert s[..i + 1][..i] == s[..i];
    } else {
      assert s[..i] == s;
    }
  }

  /** The largest `uint64`, where `strconv.ParseUint` stops with a range error. */
  const UINT64_MAX: int := TWO_POW_64 - 1

  /** What `strconv.ParseInt` hands to `ParseUint`: the string after an
      optional leading sign. */
  function Unsigned(s: string): string {
    if |s| > 0 && (s[0] == '-' || s[0] == '+') then s[1..] else s
  }

  /** The length of the run of digits `d` starts with. */
  function LeadingDigits(d: string): (n: nat)
    ensures n <= |d| && AllDigits(d[..n])
    ensures forall j :: 0 <= j < n ==> IsDigit(d[j])
    ensures n < |d| ==> !IsDigit(d[n])
    decreases |d|
  {
    if |d| == 0 || !IsDigit(d[0]) then 0
    else
      var n := 1 + LeadingDigits(d[1..]);
      assert forall j :: 1 <= j < n ==> d[j] == d[1..][j - 1];
      n
  }

  /** `ParseUint` reached a digit that took its running value past the
      `uint64` maximum before it met any non-digit. The running values only
      grow, so this is the whole leading run of digits exceeding it. */
  predicate OverflowsUint64(s: string) {
    var d := Unsigned(s);
    DigitsValue(d[..LeadingDigits(d)]) > UINT64_MAX
  }

  /** Any prefix of digits that ends inside the leading run, and only those,
      is all digits; so a run that stops at `i` has length `i`. */
  lemma LeadingDigitsAt(d: string, i: nat)
    requires i <= |d| && AllDigits(d[..i])
    ensures i <= LeadingDigits(d)
    ensures i < |d| && !IsDigit(d[i]) ==> LeadingDigits(d) == i
  {
    forall j | 0 <= j < i
      ensures IsDigit(d[j])
    {
      assert d[..i][j] == d[j];
    }
  }

  /** `strconv.Atoi` on a 64-bit platform: after an optional sign, each
      character must be a digit (else a syntax error), and a digit that
      takes the magnitude past the `uint64` maximum ends the scan with a
      range error; only a complete magnitude is then checked against the
      int64 bound for its sign. */
  method Atoi(s: string) returns (r: Result<int>)
    ensures r.Ok? <==> AtoiAccepts(s)
    ensures r.Ok? ==> r.value == SignedValue(s)
    ensures r.Err? ==> r.error == if IsAtoiSyntax(s) || OverflowsUint64(s) then RANGE_ERROR else SYNTAX_ERROR
  {
    if |s| == 0 {
      return Err(SYNTAX_ERROR);
    }
    var negative := s[0] == '-';
    var digits := Unsigned(s);
    var magnitude := 0;
    var i := 0;
    while i < |digits|
      invariant 0 <= i <= |digits|
      invariant AllDigits(digits[..i])
      invariant magnitude == DigitsValue(digits[..i])
      invariant magnitude <= UINT64_MAX
    {
      if !IsDigit(digits[i]) {
        StopAtNonDigit(s, i);
        return Err(SYNTAX_ERROR);
      }
      assert digits[..i + 1][..i] == digits[..i];
      magnitude := magnitude * 10 + DigitValue(digits[i]);
      if magnitude > UINT64_MAX {
        StopPastUint64(s, i + 1);
        return Err(RANGE_ERROR);
      }
      i := i + 1;
    }
    assert digits[..i] == digits;
    ScannedAll(s);
    if i == 0 {
      return Err(SYNTAX_ERROR);
    }
    if (negative && magnitude > -INT64_MIN) || (!negative && magnitude > INT64_MAX) {
      return Err(RANGE_ERROR);
    }
    r := Ok(if negative then -magnitude else magnitude);
  }

  /** The scan of `Atoi` meets a non-digit while the value read so far is
      within the `uint64` maximum: a syntax error. */
  lemma StopAtNonDigit(s: string, i: nat)
    requires i < |Unsigned(s)| && AllDigits(Unsigned(s)[..i]) && !IsDigit(Unsigned(s)[i])
    requires DigitsValue(Unsigned(s)[..i]) <= UINT64_MAX
    ensures !IsAtoiSyntax(s) && !OverflowsUint64(s)
  {
    LeadingDigitsAt(Unsigned(s), i);
  }

  /** The scan of `Atoi` reads a digit run of `i` characters worth more
      than the `uint64` maximum: a range error, and never an accepted value. */
  lemma StopPastUint64(s: string, i: nat)
    requires i <= |Unsigned(s)| && AllDigits(Unsigned(s)[..i])
    requires DigitsValue(Unsigned(s)[..i]) > UINT64_MAX
    ensures OverflowsUint64(s) && !AtoiAccepts(s)
  {
    var d := Unsigned(s);
    var n := LeadingDigits(d);
    LeadingDigitsAt(d, i);
    DigitsValuePrefix(d[..n], i);
    assert d[..n][..i] == d[..i];
    if AllDigits(d) {
      DigitsValuePrefix(d, i);
    }
  }

  /** The scan of `Atoi` read every character as a digit: no range error
      from `ParseUint`, and the syntax holds iff there was a digit. */
  lemma ScannedAll(s: string)
    requires |s| > 0 && AllDigits(Unsigned(s)) && DigitsValue(Unsigned(s)) <= UINT64_MAX
    ensures !OverflowsUint64(s)
    ensures IsAtoiSyntax(s) <==> |Unsigned(s)| > 0
    ensures IsAtoiSyntax(s) ==> SignedValue(s) == if s[0] == '-' then -(DigitsValue(Unsigned(s)) as int) else DigitsValue(Unsigned(s))
  {
    var d := Unsigned(s);
    LeadingDigitsAt(d, |d|);
    assert d[..|d|] == d;
  }

  /** Trailing junk after a digit run: a syntax error while the run is at
      most the `uint64` maximum, even past the int64 bound, and a range error
      once it exceeds it. */
  lemma AtoiTrailingJunk(d: string, c: char)
    requires |d| > 0 && AllDigits(d) && !IsDigit(c)
    ensures !IsAtoiSyntax(d + [c])
    ensures OverflowsUint64(d + [c]) <==> DigitsValue(d) > UINT64_MAX
  {
    var s := d + [c];
    assert s[|d|] == c;
    assert s[..|d|] == d;
    assert Unsigned(s) == s;
    LeadingDigitsAt(s, |d|);
  }

  /** `CheckIdString`: the id passes iff `Atoi` accepts it. Despite its doc
      comment calling it a uint64 check, signed values pass and values of
      2^63 or more fail. */
  method CheckIdString(id: string) returns (o: Outcome)
    ensures o.Pass? <==> AtoiAccepts(id)
    ensures o.Fail? ==> o.error == INVALID_ID_ERROR + id
  {
    var parsed := Atoi(id);
    if parsed.Err? {
      return Fail(INVALID_ID_ERROR + id);
    }
    return Pass;
  }

  /** Every key the proposal and CSR indexes use passes the id check and
      reads back as the id reinterpreted as a signed 64-bit integer. */
  lemma IdKeysPassCheck(id: Uint64)
    ensures AtoiAccepts(Governance.IdKey(id))
    ensures SignedValue(Governance.IdKey(id)) == Uint64ToInt(id)
  {
    IntToDecimalRoundTrip(Uint64ToInt(id));
  }

  /** A rendered integer passes exactly when it lies in the int64 range,
      so both bounds are inclusive and one past either bound fails. */
  lemma AtoiAcceptsRenderings(n: int)
    ensures AtoiAccepts(IntToDecimal(n)) <==> InInt64(n)
  {
    IntToDecimalRoundTrip(n);
  }

  /** Small cases of the id check: a sign is accepted, while the empty
      string, a lone sign and Go digit separators are not. */
  lemma AtoiExamples()
    ensures AtoiAccepts("-1") && SignedValue("-1") == -1
    ensures AtoiAccepts("+7") && SignedValue("+7") == 7
    ensures !AtoiAccepts("")
    ensures !AtoiAccepts("-")
    ensures !AtoiAccepts("1_000")
  {
    assert !IsDigit("1_000"[1]);
    assert "-1"[1..] == "1";
    assert "+7"[1..] == "7";
  }
}
