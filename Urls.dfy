/**
 * The two URL families the crawler visits: the paginated "most depended
 * upon" listing and the per-package dependency tab, plus Python's decimal
 * rendering of an integer that the listing URL embeds.
 */
module Urls {
  import opened Wrappers

  const RegistryPageUrl: string := "https://www.npmjs.com/browse/depended"
  const PackagePageUrl: string := "https://www.npmjs.com/package/"
  const OffsetParam: string := "?offset="
  const DependenciesTab: string := "?activeTab=dependencies"

  predicate IsDigit(c: char) { '0' <= c <= '9' }

  predicate AllDigits(s: string) { forall i :: 0 <= i < |s| ==> IsDigit(s[i]) }

  function DigitChar(d: nat): (c: char)
    requires d < 10
    ensures IsDigit(c) && c as int - '0' as int == d
  {
    ['0', '1', '2', '3', '4', '5', '6', '7', '8', '9'][d]
  }

  /** Decimal digits of a natural number, most significant first, no leading zero. */
  function NatToDigits(n: nat): (s: string)
    ensures |s| > 0 && AllDigits(s)
    ensures |s| > 1 ==> s[0] != '0'
    ensures (s[0] == '0') <==> n == 0
    decreases n
  {
    if n < 10 then [DigitChar(n)] else NatToDigits(n / 10) + [DigitChar(n % 10)]
  }

  /** What `str(i)` (and so an f-string) gives for a Python int. */
  function IntToString(i: int): (s: string)
    ensures |s| > 0
    ensures (s[0] == '-') <==> i < 0
    ensures i >= 0 ==> AllDigits(s)
    ensures i < 0 ==> AllDigits(s[1..])
    ensures i >= 0 && |s| > 1 ==> s[0] != '0'
    ensures i < 0 ==> |s| > 1 && s[1] != '0'
    ensures s == "0" <==> i == 0
  {
    if i < 0 then "-" + NatToDigits(-i) else NatToDigits(i)
  }

  function DigitsToNat(s: string): nat
    requires AllDigits(s)
  {
    if s == [] then 0 else DigitsToNat(s[..|s| - 1]) * 10 + (s[|s| - 1] as int - '0' as int)
  }

  /** Reads back a decimal integer with an optional leading minus sign. */
  function ParseInt(s: string): Option<int>
  {
    if |s| > 1 && s[0] == '-' && AllDigits(s[1..]) then Some(0 - DigitsToNat(s[1..]) as int)
    else if |s| > 0 && AllDigits(s) then Some(DigitsToNat(s))
    else None
  }

  lemma {:induction false} DigitsRoundTrip(n: nat)
    ensures DigitsToNat(NatToDigits(n)) == n
    decreases n
  {
    if n >= 10 {
      var s := NatToDigits(n);
      assert s[..|s| - 1] == NatToDigits(n / 10);
      DigitsRoundTrip(n / 10);
    }
  }

  lemma {:induction false} IntRoundTrip(i: int)
    ensures ParseInt(IntToString(i)) == Some(i)
  {
    var s := IntToString(i);
    if i < 0 {
      var d := NatToDigits(-i);
      assert s[1..] == d;
      DigitsRoundTrip(-i);
      assert ParseInt(s) == Some(0 - DigitsToNat(d) as int);
    } else {
      assert s == NatToDigits(i);
      DigitsRoundTrip(i);
    }
  }

  /**
   * `npm_registry_url`: the bare listing URL when no offset is given,
   * otherwise the listing URL with an `?offset=` query in decimal.
   */
  function RegistryUrl(offset: Option<int>): (url: string)
    ensures RegistryPageUrl <= url
    ensures offset.None? <==> url == RegistryPageUrl
    ensures offset.Some? ==> RegistryPageUrl + OffsetParam <= url
    ensures offset.Some? ==> url[|RegistryPageUrl + OffsetParam|..] == IntToString(offset.value)
  {
    match offset
    case None => RegistryPageUrl
    case Some(o) => RegistryPageUrl + OffsetParam + IntToString(o)
  }

  /** `npm_package_url`: the dependency tab of one package's page. */
  function PackageUrl(name: string): (url: string)
    ensures PackagePageUrl <= url
    ensures |url| == |PackagePageUrl| + |name| + |DependenciesTab|
    ensures url[|PackagePageUrl|..|PackagePageUrl| + |name|] == name
    ensures url[|PackagePageUrl| + |name|..] == DependenciesTab
  {
    PackagePageUrl + name + DependenciesTab
  }

  /** Inverse of RegistryUrl: which offset (if any) a listing URL carries. */
  function ParseRegistryUrl(url: string): Option<Option<int>>
  {
    if url == RegistryPageUrl then Some(None)
    else if RegistryPageUrl + OffsetParam <= url then
      match ParseInt(url[|RegistryPageUrl + OffsetParam|..])
      case Some(o) => Some(Some(o))
      case None => None
    else None
  }

  /** Inverse of PackageUrl: the package name inside a dependency-tab URL. */
  function ParsePackageUrl(url: string): Option<string>
  {
    if |url| >= |PackagePageUrl| + |DependenciesTab| && PackagePageUrl <= url
       && url[|url| - |DependenciesTab|..] == DependenciesTab
    then Some(url[|PackagePageUrl|..|url| - |DependenciesTab|])
    else None
  }

  lemma RegistryUrlRoundTrip(offset: Option<int>)
    ensures ParseRegistryUrl(RegistryUrl(offset)) == Some(offset)
  {
    if offset.Some? {
      var url := RegistryUrl(offset);
      assert |url| > |RegistryPageUrl|;
      assert url[|RegistryPageUrl + OffsetParam|..] == IntToString(offset.value);
      IntRoundTrip(offset.value);
    }
  }

  lemma PackageUrlRoundTrip(name: string)
    ensures ParsePackageUrl(PackageUrl(name)) == Some(name)
  {
  }

  /** Distinct offsets give distinct listing URLs, distinct names distinct package URLs. */
  lemma UrlsInjective(a: Option<int>, b: Option<int>, m: string, n: string)
    ensures RegistryUrl(a) == RegistryUrl(b) ==> a == b
    ensures PackageUrl(m) == PackageUrl(n) ==> m == n
  {
    RegistryUrlRoundTrip(a);
    RegistryUrlRoundTrip(b);
    PackageUrlRoundTrip(m);
    PackageUrlRoundTrip(n);
  }
}
