/** The boundary to the object store: the requests the handlers hand to the
    request signer, the text of a URL under the `gallery` bucket, and the
    decimal text of a number placed in a request header. The signer itself
    (AWS Signature Version 4 query-string signing) and the rewrite of a URL's
    query parameter are opaque functions. */
module Storage {
  import opened Http

  datatype HttpMethod = Get | Put

  /** A request header, name and value. */
  type Header = (string, string)

  /** What a handler passes to `aws.sign` with query-string signing: one
      HTTP method (`verb`), one URL and the request headers. No lifetime is
      passed, and which headers the signature covers is the library's choice. */
  datatype SignRequest = SignRequest(verb: HttpMethod, url: string, headers: seq<Header>)

  /** The two library calls behind a pre-signed URL: `sign` gives the URL of
      the signed request, and `setQueryParam(url, name, value)` is
      `new URL(url)` with `searchParams.set(name, value)`, as text. */
  datatype UrlSigner = UrlSigner(sign: SignRequest -> string, setQueryParam: (string, string, string) -> string)

  const ExpiresParam := "X-Amz-Expires"
  const ExpiresValue := "3600"

  /** The URL a route hands out: the signed URL, with `X-Amz-Expires` then
      set to 3600. The parameter is written after signing. */
  function PresignedUrl(signer: UrlSigner, request: SignRequest): (url: string)
    ensures url == signer.setQueryParam(signer.sign(request), ExpiresParam, DecimalString(UrlLifetime))
  {
    ExpiresValueIsLifetime();
    signer.setQueryParam(signer.sign(request), ExpiresParam, ExpiresValue)
  }

  /** A handler's observable behaviour: the response it sends, and the one
      request it gave to the signer, if it signed anything. */
  datatype Exchange<T> = Exchange(response: Response<T>, signed: Option<SignRequest>)

  /** Lifetime, in seconds, that the routes report for every URL they hand out. */
  const UrlLifetime: nat := 3600

  /** The `X-Amz-Expires` text written into each URL is the lifetime the
      response reports. */
  lemma ExpiresValueIsLifetime()
    ensures ParseDecimal(ExpiresValue) == Some(UrlLifetime as int)
    ensures ExpiresValue == DecimalString(UrlLifetime)
  {
    assert NatDigits(3) == "3";
    assert NatDigits(36) == "36";
    assert NatDigits(360) == "360";
    assert NatDigits(3600) == "3600";
    DecimalStringRoundTrip(UrlLifetime);
  }

  const Bucket := "gallery/"

  /** The path text, inside the account's store, built for a name: `gallery/`
      followed by the name as it is, neither escaped nor normalised. */
  function ObjectKey(name: string): string {
    Bucket + name
  }

  /** The text `https://<account>.r2.cloudflarestorage.com/gallery/<name>`.
      It is a string; what a URL parser later makes of a name holding `../`,
      `?` or `#` is not modelled. */
  function BucketUrl(account: string, name: string): string {
    "https://" + account + ".r2.cloudflarestorage.com/" + ObjectKey(name)
  }

  /** Everything of a bucket URL's text that comes before the name. */
  function BucketUrlPrefix(account: string): string {
    "https://" + account + ".r2.cloudflarestorage.com/" + Bucket
  }

  /** A bucket URL's text is its account's prefix followed by the name, and
      the name can be read back from the text. */
  lemma BucketUrlNamesObject(account: string, name: string)
    ensures BucketUrl(account, name) == BucketUrlPrefix(account) + name
    ensures BucketUrl(account, name)[|BucketUrlPrefix(account)|..] == name
  {
  }

  /** Two names of one account give the same URL text only if they are the
      same string. */
  lemma BucketUrlInjective(account: string, a: string, b: string)
    requires BucketUrl(account, a) == BucketUrl(account, b)
    ensures a == b
  {
    BucketUrlNamesObject(account, a);
    BucketUrlNamesObject(account, b);
  }

  predicate IsDigit(c: char) {
    '0' <= c <= '9'
  }

  predicate AllDigits(s: string) {
    forall i :: 0 <= i < |s| ==> IsDigit(s[i])
  }

  function DigitChar(d: nat): (c: char)
    requires d < 10
    ensures IsDigit(c)
  {
    (48 + d) as char
  }

  function DigitValue(c: char): (d: nat)
    requires IsDigit(c)
    ensures d < 10
  {
    c as int - 48
  }

  /** Decimal digits of a natural number, most significant first, without
      leading zeros. */
  function NatDigits(n: nat): (s: string)
    ensures |s| >= 1 && AllDigits(s)
    ensures |s| > 1 ==> s[0] != '0'
  {
    if n < 10 then [DigitChar(n)] else NatDigits(n / 10) + [DigitChar(n % 10)]
  }

  /** `n.toString()` of a JavaScript number that holds the integer `n`. */
  function DecimalString(n: int): (s: string)
    ensures n >= 0 ==> |s| >= 1 && AllDigits(s) && (s[0] == '0' ==> s == "0")
    ensures n < 0 ==> |s| >= 2 && s[0] == '-' && AllDigits(s[1..]) && s[1] != '0'
  {
    if n < 0 then "-" + NatDigits(-n) else NatDigits(n)
  }

  /** The value of a string of decimal digits. */
  function DigitsValue(s: string): nat
    requires AllDigits(s)
  {
    if s == [] then 0 else DigitsValue(s[..|s| - 1]) * 10 + DigitValue(s[|s| - 1])
  }

  /** The reading that inverts `DecimalString`: an optionally signed string
      of decimal digits gives its value, any other text `None`. */
  function ParseDecimal(s: string): Option<int> {
    if |s| >= 2 && s[0] == '-' && AllDigits(s[1..]) then Some(0 - DigitsValue(s[1..]) as int)
    else if |s| >= 1 && AllDigits(s) then Some(DigitsValue(s))
    else None
  }

  lemma {:induction false} NatDigitsRoundTrip(n: nat)
    ensures DigitsValue(NatDigits(n)) == n
  {
    if n >= 10 {
      var s := NatDigits(n / 10);
      var t := s + [DigitChar(n % 10)];
      assert t[..|t| - 1] == s;
      NatDigitsRoundTrip(n / 10);
    }
  }

  /** The decimal text of a number reads back as that number. */
  lemma DecimalStringRoundTrip(n: int)
    ensures ParseDecimal(DecimalString(n)) == Some(n)
  {
    if n < 0 {
      var s := DecimalString(n);
      assert s[1..] == NatDigits(-n);
      NatDigitsRoundTrip(-n);
    } else {
      NatDigitsRoundTrip(n);
    }
  }
}
