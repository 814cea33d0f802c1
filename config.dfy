/** Loading the wallet configuration from the environment
    (backend/x402_wallet/config.py). The environment is a map from variable
    name to value. */
module Config {
  import opened Wrappers
  import opened Text

  const DEFAULT_TTL := 300
  const MISSING_PAY_TO := "Missing PAY_TO_ADDRESS env var. Set it to the pay-to address shown on invoices."

  datatype WalletConfig = WalletConfig(
    payToAddress: string,
    invoiceTtlSeconds: int,
    redisUrl: Option<string>,
    routePrices: map<string, string>)

  predicate IsDigit(c: char) {
    '0' <= c <= '9'
  }

  predicate DigitsOrUnderscores(s: string) {
    forall k :: 0 <= k < |s| ==> IsDigit(s[k]) || s[k] == '_'
  }

  /** An underscore at position `k` is followed by a digit. */
  predicate DigitAfterUnderscore(s: string, k: nat)
    requires k < |s| - 1
  {
    s[k] == '_' ==> IsDigit(s[k + 1])
  }

  /** Decimal digits, with single underscores allowed between two digits. */
  predicate DigitGroups(s: string) {
    && DigitsOrUnderscores(s)
    && |s| > 0 && IsDigit(s[0]) && IsDigit(s[|s| - 1])
    && forall k: nat :: k < |s| - 1 ==> DigitAfterUnderscore(s, k)
  }

  /** The value of a run of digits and underscores, underscores ignored. */
  function DigitsValue(s: string): nat
    requires DigitsOrUnderscores(s)
  {
    if s == [] then 0
    else if s[|s| - 1] == '_' then DigitsValue(s[..|s| - 1])
    else DigitsValue(s[..|s| - 1]) * 10 + (s[|s| - 1] as int - '0' as int)
  }

  /** Python's `int(text)` in base 10: surrounding whitespace is ignored, an
      optional sign, then digits with single underscores between them; None
      where Python raises `ValueError`. */
  function ParseInt(text: string): Option<int> {
    ParseStripped(Strip(text))
  }

  /** `int` on text that has already been stripped. */
  function ParseStripped(t: string): Option<int> {
    if |t| > 0 && (t[0] == '+' || t[0] == '-') then
      if DigitGroups(t[1..]) then Some(if t[0] == '-' then 0 - DigitsValue(t[1..]) else DigitsValue(t[1..]))
      else None
    else if DigitGroups(t) then Some(DigitsValue(t))
    else None
  }

  function DigitChar(d: nat): char
    requires d < 10
  {
    ('0' as int + d) as char
  }

  /** Python's `str(n)` for a natural number. */
  function NatToString(n: nat): (r: string)
    ensures |r| > 0 && forall k :: 0 <= k < |r| ==> IsDigit(r[k])
  {
    if n < 10 then [DigitChar(n)] else NatToString(n / 10) + [DigitChar(n % 10)]
  }

  /** Python's `str(n)`. */
  function IntToString(n: int): string {
    if n < 0 then "-" + NatToString(-n) else NatToString(n)
  }

  lemma {:induction false} NatToStringValue(n: nat)
    ensures DigitsValue(NatToString(n)) == n
  {
    if n >= 10 {
      var r := NatToString(n);
      NatToStringValue(n / 10);
      assert r[..|r| - 1] == NatToString(n / 10);
    }
  }

  /** A non-empty run of digits is a valid group of digits. */
  lemma DigitsAreGroups(d: string)
    requires |d| > 0 && forall k :: 0 <= k < |d| ==> IsDigit(d[k])
    ensures DigitGroups(d)
  {
  }

  /** Round trip: `int(str(n)) == n` for every integer. */
  lemma ParseIntToString(n: int)
    ensures ParseInt(IntToString(n)) == Some(n)
  {
    if n < 0 {
      NegativeDigits(n);
      ParseIntNegative(IntToString(n));
    } else {
      var d := NatToString(n);
      NatToStringValue(n);
      ParseIntUnsigned(d);
      assert IntToString(n) == d;
    }
  }

  /** A plain run of digits parses as its value. */
  lemma ParseIntUnsigned(d: string)
    requires |d| > 0 && forall k :: 0 <= k < |d| ==> IsDigit(d[k])
    ensures ParseInt(d) == Some(DigitsValue(d))
  {
    DigitsAreGroups(d);
    assert IsDigit(d[0]) && IsDigit(d[|d| - 1]);
    StripUnchanged(d);
  }

  /** A minus sign then a run of digits parses as the negated value. */
  lemma ParseIntNegative(s: string)
    requires |s| > 1 && s[0] == '-' && forall k :: 1 <= k < |s| ==> IsDigit(s[k])
    ensures ParseInt(s) == Some(0 - DigitsValue(s[1..]))
  {
    DigitsAreGroups(s[1..]);
    StripUnchanged(s);
    ParseIntStripped(s);
  }

  /** `str(n)` of a negative `n` is a minus sign then the digits of `-n`. */
  lemma NegativeDigits(n: int)
    requires n < 0
    ensures var s := IntToString(n);
      && |s| > 1 && s[0] == '-' && (forall k :: 1 <= k < |s| ==> IsDigit(s[k]))
      && DigitsValue(s[1..]) == -n
  {
    var s := IntToString(n);
    assert s[1..] == NatToString(-n);
    NatToStringValue(-n);
  }

  /** Text without surrounding whitespace is parsed as it is. */
  lemma ParseIntStripped(s: string)
    requires Strip(s) == s
    ensures ParseInt(s) == ParseStripped(s)
  {
  }

  /** Text with nothing but whitespace never parses. */
  lemma ParseIntBlank(text: string)
    requires AllSpace(text)
    ensures ParseInt(text) == None
  {
  }

  /** `os.getenv(name)`. */
  function GetEnv(env: map<string, string>, name: string): Option<string> {
    if name in env then Some(env[name]) else None
  }

  /** The TTL rule: 300 when the variable is absent or empty or is not an
      integer, otherwise the integer itself. */
  function TtlFrom(ttlEnv: Option<string>): int {
    if ttlEnv.None? || ttlEnv.value == [] then DEFAULT_TTL
    else ParseInt(ttlEnv.value).GetOr(DEFAULT_TTL)
  }

  /** `load_config`: Failure carries the RuntimeError's message. */
  function LoadConfig(env: map<string, string>, routePrices: map<string, string>): Result<WalletConfig, string> {
    var payTo := GetEnv(env, "PAY_TO_ADDRESS");
    if payTo.None? || payTo.value == [] then Failure(MISSING_PAY_TO)
    else Success(WalletConfig(payTo.value, TtlFrom(GetEnv(env, "INVOICE_TTL_SECONDS")),
                              GetEnv(env, "REDIS_URL"), routePrices))
  }

  /** A missing or empty PAY_TO_ADDRESS is fatal; otherwise the payee, the
      Redis URL and the route prices are passed through unchanged. */
  lemma LoadConfigPayee(env: map<string, string>, routePrices: map<string, string>)
    ensures LoadConfig(env, routePrices).Failure? <==> "PAY_TO_ADDRESS" !in env || env["PAY_TO_ADDRESS"] == []
    ensures LoadConfig(env, routePrices).Failure? ==> LoadConfig(env, routePrices).error == MISSING_PAY_TO
    ensures LoadConfig(env, routePrices).Success? ==>
      var c := LoadConfig(env, routePrices).value;
      && c.payToAddress == env["PAY_TO_ADDRESS"]
      && c.routePrices == routePrices
      && (c.redisUrl.Some? <==> "REDIS_URL" in env)
      && (c.redisUrl.Some? ==> c.redisUrl.value == env["REDIS_URL"])
  {
  }

  /** TTL fallback: 300 when INVOICE_TTL_SECONDS is absent, empty or blank. */
  lemma TtlDefault(env: map<string, string>, routePrices: map<string, string>)
    requires LoadConfig(env, routePrices).Success?
    requires "INVOICE_TTL_SECONDS" !in env || AllSpace(env["INVOICE_TTL_SECONDS"])
    ensures LoadConfig(env, routePrices).value.invoiceTtlSeconds == DEFAULT_TTL
  {
    if "INVOICE_TTL_SECONDS" in env {
      ParseIntBlank(env["INVOICE_TTL_SECONDS"]);
    }
  }

  /** Any integer written in decimal is taken as the TTL as it is: there is no
      lower bound, so zero and negative TTLs are accepted. */
  lemma TtlAnyInteger(env: map<string, string>, routePrices: map<string, string>, n: int)
    requires "PAY_TO_ADDRESS" in env && env["PAY_TO_ADDRESS"] != []
    ensures LoadConfig(env["INVOICE_TTL_SECONDS" := IntToString(n)], routePrices).value.invoiceTtlSeconds == n
  {
    var e := env["INVOICE_TTL_SECONDS" := IntToString(n)];
    TtlFromInt(n);
    assert GetEnv(e, "PAY_TO_ADDRESS") == Some(env["PAY_TO_ADDRESS"]);
    assert GetEnv(e, "INVOICE_TTL_SECONDS") == Some(IntToString(n));
  }

  lemma TtlFromInt(n: int)
    ensures TtlFrom(Some(IntToString(n))) == n
  {
    ParseIntToString(n);
  }

  /** A value that is not an integer falls back to 300. */
  lemma TtlUnparsable(env: map<string, string>, routePrices: map<string, string>)
    requires LoadConfig(env, routePrices).Success?
    requires "INVOICE_TTL_SECONDS" in env && ParseInt(env["INVOICE_TTL_SECONDS"]).None?
    ensures LoadConfig(env, routePrices).value.invoiceTtlSeconds == DEFAULT_TTL
  {
  }
}
