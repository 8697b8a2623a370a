/** The response of digest credentials (`createAuthResponse` of src/auth.cpp), the digests it is
    made of, and that it is the one of RFC 7616. The SSL library is a parameter. */
module DigestResponse {
  import opened Text
  import Rfc7616

  newtype byte = x: int | 0 <= x < 256

  datatype Hash = Md5 | Sha256 | Sha512_256

  /** What the SSL library computes: the digest of a text, or none if it fails, and
      whether it has SHA-512/256 at all. */
  datatype Ssl = Ssl(digest: (Hash, string) -> Option<seq<byte>>, hasSha512_256: bool)
  {
    predicate Has(hash: Hash) {
      hash != Sha512_256 || hasSha512_256
    }
  }

  datatype Algorithm = Algorithm(hash: Hash, sess: bool)

  // Hexadecimal text.

  function HexDigit(n: nat): (c: char)
    requires n < 16
    ensures IsHexDigit(c)
  {
    if n <= 9 then ('0' as int + n) as char else ('a' as int + n - 10) as char
  }

  predicate IsHexDigit(c: char) {
    '0' <= c <= '9' || 'a' <= c <= 'f'
  }

  predicate IsHex(s: string) {
    forall i :: 0 <= i < |s| ==> IsHexDigit(s[i])
  }

  /** The value of a lower-case hexadecimal text. */
  function HexBytes(s: string): seq<byte>
    requires IsHex(s) && |s| % 2 == 0
  {
    if s == "" then []
    else [(HexValue(s[0]) * 16 + HexValue(s[1])) as byte] + HexBytes(s[2..])
  }

  function HexValue(c: char): (n: nat)
    requires IsHexDigit(c)
    ensures n < 16 && HexDigit(n) == c
  {
    if c <= '9' then c as int - '0' as int else c as int - 'a' as int + 10
  }

  function ToHex(bytes: seq<byte>): (s: string)
    ensures IsHex(s) && |s| == 2 * |bytes|
  {
    if bytes == [] then ""
    else [HexDigit(bytes[0] as int / 16), HexDigit(bytes[0] as int % 16)] + ToHex(bytes[1..])
  }

  lemma {:induction false} HexRoundTrip(bytes: seq<byte>)
    ensures HexBytes(ToHex(bytes)) == bytes
  {
    if bytes != [] {
      assert ToHex(bytes)[2..] == ToHex(bytes[1..]);
      HexRoundTrip(bytes[1..]);
    }
  }

  lemma {:induction false} ToHexSnoc(bytes: seq<byte>, b: byte)
    ensures ToHex(bytes + [b]) == ToHex(bytes) + [HexDigit(b as int / 16), HexDigit(b as int % 16)]
  {
    if bytes != [] {
      assert (bytes + [b])[1..] == bytes[1..] + [b];
      ToHexSnoc(bytes[1..], b);
    }
  }

  /** `hashToHex`, the loop that fills a buffer two digits at a time. */
  method HashToHex(bytes: seq<byte>, out: array<char>)
    requires 2 * |bytes| <= out.Length
    modifies out
    ensures out[..2 * |bytes|] == ToHex(bytes)
  {
    ghost var done := "";
    for i := 0 to |bytes|
      invariant |done| == 2 * i && done == ToHex(bytes[..i])
      invariant forall k :: 0 <= k < 2 * i ==> out[k] == done[k]
    {
      var b := bytes[i] as int;
      out[2 * i] := HexDigit(b / 16);
      out[2 * i + 1] := HexDigit(b % 16);
      done := done + [HexDigit(b / 16), HexDigit(b % 16)];
      assert bytes[..i + 1] == bytes[..i] + [bytes[i]];
      ToHexSnoc(bytes[..i], bytes[i]);
    }
    assert bytes[..|bytes|] == bytes;
  }

  /** Eight hexadecimal digits: `%08x` of an unsigned 32-bit number. */
  function Hex8(n: nat): (s: string)
    requires n < 0x1_0000_0000
    ensures IsHex(s) && |s| == 8
  {
    HexPad(n, 8)
  }

  function HexPad(n: nat, width: nat): (s: string)
    ensures IsHex(s) && |s| == width
  {
    if width == 0 then "" else HexPad(n / 16, width - 1) + [HexDigit(n % 16)]
  }

  /** `digestAlgorithm`: the algorithm of that name, in any case. */
  function DigestAlgorithm(name: string): (a: Option<Algorithm>) {
    if EqualNoCase(name, "MD5") then Some(Algorithm(Md5, false))
    else if EqualNoCase(name, "MD5-sess") then Some(Algorithm(Md5, true))
    else if EqualNoCase(name, "SHA-256") then Some(Algorithm(Sha256, false))
    else if EqualNoCase(name, "SHA-256-sess") then Some(Algorithm(Sha256, true))
    else if EqualNoCase(name, "SHA-512-256") then Some(Algorithm(Sha512_256, false))
    else if EqualNoCase(name, "SHA-512-256-sess") then Some(Algorithm(Sha512_256, true))
    else None
  }

  /** The number that hexadecimal digits write. */
  function HexNumber(s: string): nat
    requires IsHex(s)
  {
    if s == "" then 0 else HexNumber(s[..|s| - 1]) * 16 + HexValue(s[|s| - 1])
  }

  /** A number of 32 bits is that of its eight digits. */
  lemma {:induction false} Hex8RoundTrip(n: nat)
    requires n < 0x1_0000_0000
    ensures HexNumber(Hex8(n)) == n
  {
    HexPadRoundTrip(n, 8);
    assert Power16(8) == 0x1_0000_0000;
  }

  function Power16(k: nat): nat {
    if k == 0 then 1 else 16 * Power16(k - 1)
  }

  lemma {:induction false} HexPadRoundTrip(n: nat, width: nat)
    requires n < Power16(width)
    ensures HexNumber(HexPad(n, width)) == n
  {
    if width > 0 {
      HexPadRoundTrip(n / 16, width - 1);
      DigitRoundTrip(n % 16);
      var s := HexPad(n, width);
      assert s[..|s| - 1] == HexPad(n / 16, width - 1);
    }
  }

  lemma {:induction false} DigitRoundTrip(d: nat)
    requires d < 16
    ensures HexValue(HexDigit(d)) == d
  {
  }

  /** The name of an algorithm in section 6.1 of RFC 7616. */
  function AlgorithmText(a: Algorithm): string {
    (match a.hash case Md5 => "MD5" case Sha256 => "SHA-256" case Sha512_256 => "SHA-512-256")
    + if a.sess then "-sess" else ""
  }

  /** Each algorithm is known by its name, in any case, and by no other. */
  lemma {:induction false} AlgorithmByName(name: string, a: Algorithm)
    ensures DigestAlgorithm(name) == Some(a) <==> EqualNoCase(name, AlgorithmText(a))
  {
  }

  // Digests.

  /** The digest of a text in hexadecimal, "" if the library fails. */
  function HexOf(ssl: Ssl, hash: Hash, text: string): (hex: string)
    ensures IsHex(hex)
  {
    match ssl.digest(hash, text) case None => "" case Some(bytes) => ToHex(bytes)
  }

  /** A digest context: what was put in since it was started. */
  class Digest {
    const ssl: Ssl
    const hash: Hash
    var fed: string

    constructor (ssl: Ssl, hash: Hash)
      ensures this.ssl == ssl && this.hash == hash
    {
      this.ssl, this.hash, fed := ssl, hash, "";
    }

    method Init()
      modifies this
      ensures fed == ""
    {
      fed := "";
    }

    /** `digestString`. */
    method Update(s: string)
      modifies this
      ensures fed == old(fed) + s
    {
      fed := fed + s;
    }

    /** `digestFinalHex`. */
    method FinalHex() returns (hex: string)
      ensures hex == HexOf(ssl, hash, fed)
    {
      var bytes := ssl.digest(hash, fed);
      if bytes.None? {
        return "";
      }
      var out := new char[2 * |bytes.value|];
      HashToHex(bytes.value, out);
      hex := out[..];
      assert out[..2 * |bytes.value|] == out[..];
    }

    /** The digest of texts with colons between them. */
    method OfThree(a: string, b: string, c: string) returns (hex: string)
      modifies this
      ensures hex == HexOf(ssl, hash, a + ":" + b + ":" + c)
    {
      Init();
      Update(a);
      Update(":");
      Update(b);
      Update(":");
      Update(c);
      assert fed == a + ":" + b + ":" + c;
      hex := FinalHex();
    }
  }

  // The response.

  /** What a response is computed from. */
  datatype Credentials = Credentials(
    user: string, password: string, method_: string, uri: string, qop: string, body: string,
    realm: string, nonce: string, cnonce: string, nc: string)
  {
    predicate Int() {
      ContainsNoCase(qop, "auth-int")
    }

    /** The URI that is hashed: that of the -auth_uri option if there is one. */
    function Target(authUri: Option<string>): string {
      if authUri.Some? then "sip:" + authUri.value else uri
    }
  }

  /** The texts that are hashed for a response, in the order of RFC 7616; `h` gives the digests. */
  function Texts(h: string -> string, a: Algorithm, authUri: Option<string>, c: Credentials): (r: seq<string>)
    ensures r != []
  {
    var first := h(Rfc7616.A1(c.user, c.realm, c.password));
    var body := if c.Int() then h(c.body) else "";
    [Rfc7616.A1(c.user, c.realm, c.password)]
    + (if a.sess then [Rfc7616.SessionA1(first, c.nonce, c.cnonce)] else [])
    + (if c.Int() then [c.body] else [])
    + [if c.Int() then Rfc7616.IntegrityA2(c.method_, c.Target(authUri), body)
       else Rfc7616.A2(c.method_, c.Target(authUri))]
    + [LastText(h, a, authUri, c)]
  }

  /** The secret of a response, H(A1), and its data, with the nonce count only if there is a
      client nonce. */
  function LastText(h: string -> string, a: Algorithm, authUri: Option<string>, c: Credentials): string {
    var first := h(Rfc7616.A1(c.user, c.realm, c.password));
    var secret := if a.sess then h(Rfc7616.SessionA1(first, c.nonce, c.cnonce)) else first;
    var a2 := if c.Int() then Rfc7616.IntegrityA2(c.method_, c.Target(authUri), h(c.body))
              else Rfc7616.A2(c.method_, c.Target(authUri));
    Rfc7616.Keyed(secret, if c.cnonce == "" then Rfc7616.OldData(c.nonce, h(a2))
                          else Rfc7616.Data(c.nonce, c.nc, c.cnonce, c.qop, h(a2)))
  }

  /** All digests that are asked for are computed, and are of one length. */
  predicate Computed(h: string -> string, texts: seq<string>)
    requires texts != []
  {
    h(texts[0]) != "" && forall i :: 0 <= i < |texts| ==> |h(texts[i])| == |h(texts[0])|
  }

  /** `createAuthResponse`, as RFC 7616 has it: none if the library cannot compute a digest.
      `authUri` is the URI of the -auth_uri option. */
  function Response(ssl: Ssl, a: Algorithm, authUri: Option<string>, c: Credentials): (r: Option<string>)
    ensures r.Some? ==> IsHex(r.value) && r.value != ""
  {
    var h := t => HexOf(ssl, a.hash, t);
    var texts := Texts(h, a, authUri, c);
    if Computed(h, texts) then Some(h(texts[|texts| - 1])) else None
  }

  /** What all that comes to, digest by digest. */
  lemma {:induction false} ResponseByDigests(ssl: Ssl, a: Algorithm, authUri: Option<string>, c: Credentials,
                                             ha1: string, session: string, body: string, ha2: string, last: string)
    requires ha1 == HexOf(ssl, a.hash, c.user + ":" + c.realm + ":" + c.password)
    requires session == if a.sess then HexOf(ssl, a.hash, ha1 + ":" + c.nonce + ":" + c.cnonce) else ha1
    requires body == if c.Int() then HexOf(ssl, a.hash, c.body) else ha1
    requires ha2 == HexOf(ssl, a.hash, c.method_ + ":" + c.Target(authUri) + if c.Int() then ":" + body else "")
    requires last == HexOf(ssl, a.hash, session + ":" + c.nonce +
                           (if c.cnonce == "" then "" else ":" + c.nc + ":" + c.cnonce + ":" + c.qop) + ":" + ha2)
    ensures Response(ssl, a, authUri, c) ==
            if ha1 != "" && |session| == |body| == |ha2| == |last| == |ha1| then Some(last) else None
  {
    var h := t => HexOf(ssl, a.hash, t);
    var texts := Texts(h, a, authUri, c);
    TextsByDigests(h, a, authUri, c, ha1, session, body, ha2);
    ComputedByDigests(h, a, c, texts, ha1, session, body, ha2, last);
  }

  lemma {:induction false} TextsByDigests(h: string -> string, a: Algorithm, authUri: Option<string>, c: Credentials,
                                          ha1: string, session: string, body: string, ha2: string)
    requires ha1 == h(c.user + ":" + c.realm + ":" + c.password)
    requires session == if a.sess then h(ha1 + ":" + c.nonce + ":" + c.cnonce) else ha1
    requires body == if c.Int() then h(c.body) else ha1
    requires ha2 == h(c.method_ + ":" + c.Target(authUri) + if c.Int() then ":" + body else "")
    ensures var last := session + ":" + c.nonce +
                        (if c.cnonce == "" then "" else ":" + c.nc + ":" + c.cnonce + ":" + c.qop) + ":" + ha2;
      Texts(h, a, authUri, c) ==
        [c.user + ":" + c.realm + ":" + c.password]
        + (if a.sess then [ha1 + ":" + c.nonce + ":" + c.cnonce] else []) + (if c.Int() then [c.body] else [])
        + [c.method_ + ":" + c.Target(authUri) + if c.Int() then ":" + body else ""] + [last]
  {
    Rfc7616.Three(c.user, c.realm, c.password);
    Rfc7616.Three(ha1, c.nonce, c.cnonce);
    Rfc7616.Three(c.method_, c.Target(authUri), body);
    Rfc7616.Two(c.method_, c.Target(authUri));
    DataText(session, c, ha2);
    var second := c.method_ + ":" + c.Target(authUri);
    assert second + "" == second && second + (":" + body) == second + ":" + body;
  }

  lemma {:induction false} DataText(secret: string, c: Credentials, ha2: string)
    ensures Rfc7616.Keyed(secret, if c.cnonce == "" then Rfc7616.OldData(c.nonce, ha2)
                                  else Rfc7616.Data(c.nonce, c.nc, c.cnonce, c.qop, ha2))
         == secret + ":" + c.nonce +
            (if c.cnonce == "" then "" else ":" + c.nc + ":" + c.cnonce + ":" + c.qop) + ":" + ha2
  {
    var head := secret + ":" + c.nonce;
    if c.cnonce == "" {
      Rfc7616.Two(c.nonce, ha2);
      Rfc7616.Two(secret, Rfc7616.OldData(c.nonce, ha2));
      assert secret + ":" + (c.nonce + ":" + ha2) == head + "" + ":" + ha2;
    } else {
      var count := ":" + c.nc + ":" + c.cnonce + ":" + c.qop;
      Rfc7616.Five(c.nonce, c.nc, c.cnonce, c.qop, ha2);
      Rfc7616.Two(secret, Rfc7616.Data(c.nonce, c.nc, c.cnonce, c.qop, ha2));
      assert c.nonce + ":" + c.nc + ":" + c.cnonce + ":" + c.qop + ":" + ha2 == c.nonce + count + ":" + ha2;
      assert secret + ":" + (c.nonce + count + ":" + ha2) == head + count + ":" + ha2;
    }
  }

  lemma {:induction false} ComputedByDigests(h: string -> string, a: Algorithm, c: Credentials, texts: seq<string>,
                                             ha1: string, session: string, body: string, ha2: string, last: string)
    requires |texts| == 3 + (if a.sess then 1 else 0) + if c.Int() then 1 else 0
    requires h(texts[0]) == ha1 && session == (if a.sess then h(texts[1]) else ha1)
    requires body == if c.Int() then h(texts[|texts| - 3]) else ha1
    requires h(texts[|texts| - 2]) == ha2 && h(texts[|texts| - 1]) == last
    ensures Computed(h, texts) <==> ha1 != "" && |session| == |body| == |ha2| == |last| == |ha1|
  {
  }

  /** `createAuthResponse`: the texts are put in piece by piece. */
  method CreateAuthResponse(ssl: Ssl, a: Algorithm, authUri: Option<string>, c: Credentials)
    returns (result: Option<string>)
    ensures result == Response(ssl, a, authUri, c)
  {
    var authInt := ContainsNoCase(c.qop, "auth-int");
    var digest := new Digest(ssl, a.hash);
    var ha1 := digest.OfThree(c.user, c.realm, c.password);
    var session := ha1;
    if a.sess {
      session := digest.OfThree(ha1, c.nonce, c.cnonce);
    }
    var body := ha1;
    if authInt {
      digest.Init();
      digest.Update(c.body);
      body := digest.FinalHex();
      assert "" + c.body == c.body;
    }
    var ha2 := SecondHash(digest, authUri, c, authInt, body);
    var last := LastHash(digest, c, session, ha2);
    ResponseByDigests(ssl, a, authUri, c, ha1, session, body, ha2, last);
    if ha1 == "" || |session| != |ha1| || |body| != |ha1| || |ha2| != |ha1| || |last| != |ha1| {
      return None;
    }
    return Some(last);
  }

  method SecondHash(digest: Digest, authUri: Option<string>, c: Credentials, authInt: bool, body: string)
    returns (ha2: string)
    modifies digest
    ensures ha2 == HexOf(digest.ssl, digest.hash,
                         c.method_ + ":" + c.Target(authUri) + if authInt then ":" + body else "")
  {
    digest.Init();
    digest.Update(c.method_);
    digest.Update(":");
    if authUri.Some? {
      digest.Update("sip:");
      digest.Update(authUri.value);
    } else {
      digest.Update(c.uri);
    }
    assert digest.fed == c.method_ + ":" + c.Target(authUri) + "";
    if authInt {
      digest.Update(":");
      digest.Update(body);
      assert digest.fed == c.method_ + ":" + c.Target(authUri) + (":" + body);
    }
    ha2 := digest.FinalHex();
  }

  method LastHash(digest: Digest, c: Credentials, session: string, ha2: string) returns (last: string)
    modifies digest
    ensures last == HexOf(digest.ssl, digest.hash, session + ":" + c.nonce +
                          (if c.cnonce == "" then "" else ":" + c.nc + ":" + c.cnonce + ":" + c.qop) + ":" + ha2)
  {
    digest.Init();
    digest.Update(session);
    digest.Update(":");
    digest.Update(c.nonce);
    if c.cnonce != "" {
      digest.Update(":");
      digest.Update(c.nc);
      digest.Update(":");
      digest.Update(c.cnonce);
      digest.Update(":");
      digest.Update(c.qop);
    }
    assert digest.fed == session + ":" + c.nonce +
                         (if c.cnonce == "" then "" else ":" + c.nc + ":" + c.cnonce + ":" + c.qop);
    digest.Update(":");
    digest.Update(ha2);
    last := digest.FinalHex();
  }

  // The example of section 3.9.1 of RFC 7616.

  const EXAMPLE := Credentials(
    "Mufasa", "Circle of Life", "GET", "/dir/index.html", "auth", "", "http-auth@example.org",
    "7ypf/xlj9XXwfDPEoM4URrv/xwf94BcCAzFZH4GiTo0v", "f2/wE4q74E6zIJEtWaHKaf5wv/H5QzzpXusqGemxURZJ", "00000001")

  /** With MD5 of its three texts, the response is the one that the RFC prints. */
  lemma {:induction false} RfcExample(ssl: Ssl)
    requires HexOf(ssl, Md5, "Mufasa" + ":" + "http-auth@example.org" + ":" + "Circle of Life")
          == "3d78807defe7de2157e2b0b6573a855f"
    requires HexOf(ssl, Md5, "GET" + ":" + "/dir/index.html") == "39aff3a2bab6126f332b942af96d3366"
    requires HexOf(ssl, Md5,
      "3d78807defe7de2157e2b0b6573a855f" + ":" + "7ypf/xlj9XXwfDPEoM4URrv/xwf94BcCAzFZH4GiTo0v" + ":" + "00000001"
      + ":" + "f2/wE4q74E6zIJEtWaHKaf5wv/H5QzzpXusqGemxURZJ" + ":" + "auth" + ":" + "39aff3a2bab6126f332b942af96d3366")
      == "8ca523f5e9506fed4657c9700eebdbec"
    ensures Response(ssl, Algorithm(Md5, false), None, EXAMPLE) == Some("8ca523f5e9506fed4657c9700eebdbec")
  {
    var ha1, ha2, last :=
      "3d78807defe7de2157e2b0b6573a855f", "39aff3a2bab6126f332b942af96d3366", "8ca523f5e9506fed4657c9700eebdbec";
    ExampleByDigests(ssl, EXAMPLE, ha1, ha2, last);
  }

  lemma {:induction false} ExampleByDigests(ssl: Ssl, c: Credentials, ha1: string, ha2: string, last: string)
    requires ha1 == HexOf(ssl, Md5, c.user + ":" + c.realm + ":" + c.password)
    requires ha2 == HexOf(ssl, Md5, c.method_ + ":" + c.uri) && c.cnonce != "" && |c.qop| < 8
    requires last == HexOf(ssl, Md5,
      ha1 + ":" + c.nonce + ":" + c.nc + ":" + c.cnonce + ":" + c.qop + ":" + ha2)
    requires |ha1| == |ha2| == |last| == 32
    ensures Response(ssl, Algorithm(Md5, false), None, c) == Some(last)
  {
    var count := ":" + c.nc + ":" + c.cnonce + ":" + c.qop;
    assert c.method_ + ":" + c.Target(None) + "" == c.method_ + ":" + c.uri;
    assert ha1 + ":" + c.nonce + ":" + c.nc + ":" + c.cnonce + ":" + c.qop + ":" + ha2
        == ha1 + ":" + c.nonce + count + ":" + ha2;
    ResponseByDigests(ssl, Algorithm(Md5, false), None, c, ha1, ha1, ha1, ha2, last);
  }
}
