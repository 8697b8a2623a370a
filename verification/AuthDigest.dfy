/** Digest credentials of src/auth.cpp: the header that answers a challenge, and the
    check of such a header. */
module AuthDigest {
  import opened Text
  import opened AuthParams
  import opened DigestResponse

  // The header that answers a challenge.

  datatype AuthError =
    | NotDigest | NoMethod | NeedsAkaKey | UnknownAlgorithm | UnsupportedAlgorithm
    | NeedsQop | NoRealm | NoNonce | DigestFailed

  /** AKAv1-MD5 is answered elsewhere. */
  datatype Answer = Header(text: string) | Failed(error: AuthError) | Aka

  /** The quality of protection to answer with, from what the challenge offers. */
  function ChooseQop(offered: string): string {
    if offered == "" then ""
    else if ContainsNoCase(offered, "auth-int") then "auth-int"
    else if ContainsNoCase(offered, "auth") then "auth"
    else offered
  }

  /** The integrity of the body is preferred, then plain authentication; what is chosen is among
      what is offered, and there is one if anything is. */
  lemma {:induction false} QopIsOffered(offered: string)
    ensures ContainsNoCase(offered, "auth-int") ==> ChooseQop(offered) == "auth-int"
    ensures ContainsNoCase(offered, "auth") && !ContainsNoCase(offered, "auth-int") ==> ChooseQop(offered) == "auth"
    ensures ContainsNoCase(offered, ChooseQop(offered)) && (ChooseQop(offered) == "" <==> offered == "")
    ensures ChooseQop("auth,auth-int") == "auth-int" && ChooseQop("auth") == "auth" && ChooseQop("token") == "token"
  {
    assert offered[0..][..|offered|] == offered;
    assert "auth,auth-int"[5..][..8] == "auth-int" && "auth"[0..][..4] == "auth";
    NoToken("token");
  }

  lemma {:induction false} NoToken(s: string)
    requires s == "token"
    ensures !ContainsNoCase(s, "auth") && !ContainsNoCase(s, "auth-int")
  {
    forall at | 0 <= at <= 1 ensures !EqualNoCase(s[at..][..4], "auth") {
      assert Lower(s[at..][..4][0]) != Lower("auth"[0]);
    }
  }

  /** What a user brings to an answer: `rand1` and `rand2` make the cnonce. */
  datatype User = User(
    name: string, password: string, method_: Option<string>, uri: string, body: string,
    nonceCount: nat, rand1: nat, rand2: nat, authUri: Option<string>)
  {
    predicate Valid() {
      nonceCount < 0x1_0000_0000 && rand1 < 0x1_0000_0000 && rand2 < 0x1_0000_0000
    }

    function SipUri(): string {
      "sip:" + if authUri.Some? then authUri.value else uri
    }
  }

  function AlgorithmName(challenge: string): string {
    var algo := GetAuthParameter("algorithm", challenge);
    if algo == "" then "MD5" else algo
  }

  function Answers(user: User, challenge: string): Credentials
    requires user.Valid() && user.method_.Some?
  {
    var qop := ChooseQop(GetAuthParameter("qop", challenge));
    Credentials(
      user.name, user.password, user.method_.value, user.SipUri(), qop, user.body,
      GetAuthParameter("realm", challenge), GetAuthParameter("nonce", challenge),
      if qop == "" then "" else Hex8(user.rand1) + Hex8(user.rand2),
      if qop == "" then "" else Hex8(user.nonceCount))
  }

  function Plain(key: string, value: Value): Item {
    Param("", key, "", "", value)
  }

  function HeaderFront(c: Credentials): seq<Item> {
    [Param(" ", "username", "", "", Quoted(c.user)), Plain("realm", Quoted(c.realm))]
    + (if c.cnonce == "" then []
       else [Plain("cnonce", Quoted(c.cnonce)), Plain("nc", Bare(c.nc)), Plain("qop", Bare(c.qop))])
  }

  /** The parameters of the header, but opaque. */
  function HeaderItems(c: Credentials, response: string, algo: string): seq<Item> {
    HeaderFront(c)
    + [Plain("uri", Quoted(c.uri)), Plain("nonce", Quoted(c.nonce)),
       Plain("response", Quoted(response)), Plain("algorithm", Bare(algo))]
  }

  /** The opaque parameter, which comes last, if the challenge has one. */
  function OpaqueTail(text: string): string {
    if text == "" then "" else PrintMore([Plain("opaque", Quoted(text))])
  }

  /** `createAuthHeader`, but the text that it returns with an error. */
  function CreateAuthHeader(ssl: Ssl, user: User, challenge: string, akaKey: bool): Answer
    requires user.Valid()
  {
    var algo := AlgorithmName(challenge);
    if !ContainsNoCase(challenge, "Digest") then Failed(NotDigest)
    else if user.method_.None? then Failed(NoMethod)
    else if EqualNoCase(algo, "AKAv1-MD5") then if akaKey then Aka else Failed(NeedsAkaKey)
    else match DigestAlgorithm(algo)
      case None => Failed(UnknownAlgorithm)
      case Some(a) =>
        if !ssl.Has(a.hash) then Failed(UnsupportedAlgorithm)
        else DigestHeader(ssl, a, user, challenge, algo)
  }

  /** `createAuthHeaderDigest`. */
  function DigestHeader(ssl: Ssl, a: Algorithm, user: User, challenge: string, algo: string): Answer
    requires user.Valid() && user.method_.Some?
  {
    var c := Answers(user, challenge);
    if a.sess && c.cnonce == "" then Failed(NeedsQop)
    else if c.realm == "" then Failed(NoRealm)
    else if c.nonce == "" then Failed(NoNonce)
    else match Response(ssl, a, user.authUri, c)
      case None => Failed(DigestFailed)
      case Some(response) =>
        Header(PrintHeader("Digest", HeaderItems(c, response, algo))
               + OpaqueTail(GetAuthParameter("opaque", challenge)))
  }

  /** `verifyAuthHeader`. */
  predicate VerifyAuthHeader(ssl: Ssl, authUri: Option<string>, user: string, password: string,
                             method_: string, header: string, body: string)
  {
    ContainsNoCase(header, "Digest") &&
    var a := DigestAlgorithm(AlgorithmName(header));
    a.Some? && ssl.Has(a.value.hash) &&
    var c := Credentials(
      user, password, method_, GetAuthParameter("uri", header), GetAuthParameter("qop", header), body,
      GetAuthParameter("realm", header), GetAuthParameter("nonce", header),
      GetAuthParameter("cnonce", header), GetAuthParameter("nc", header));
    !(a.value.sess && c.cnonce == "") &&
    var expected := Response(ssl, a.value, authUri, c);
    var response := GetAuthParameter("response", header);
    expected.Some? && response != "" && expected.value == response
  }

  lemma {:induction false} AppendItem(items: seq<Item>, item: Item)
    requires items != [] && item.lead == ""
    ensures PrintHeader("Digest", items + [item]) == PrintHeader("Digest", items) + ("," + item.Print())
  {
    assert (items + [item])[1..] == items[1..] + [item];
    PrintMoreSnoc(items[1..], item);
  }

  lemma {:induction false} PrintMoreSnoc(items: seq<Item>, item: Item)
    requires item.lead == ""
    ensures PrintMore(items + [item]) == PrintMore(items) + ("," + item.Print())
  {
    if items == [] {
      assert items + [item] == [item];
      assert PrintMore([item]) == "," + item.Print();
    } else {
      assert (items + [item])[1..] == items[1..] + [item];
      PrintMoreSnoc(items[1..], item);
    }
  }

  /** `createAuthHeaderDigest`, the text built parameter by parameter. */
  method CreateAuthHeaderDigest(ssl: Ssl, a: Algorithm, user: User, challenge: string, algo: string)
    returns (answer: Answer)
    requires user.Valid() && user.method_.Some?
    ensures answer == DigestHeader(ssl, a, user, challenge, algo)
  {
    var qop := ChooseQop(GetAuthParameter("qop", challenge));
    var cnonce, nc := "", "";
    if qop != "" {
      cnonce := Hex8(user.rand1) + Hex8(user.rand2);
      nc := Hex8(user.nonceCount);
    }
    if a.sess && cnonce == "" {
      return Failed(NeedsQop);
    }
    var realm := GetAuthParameter("realm", challenge);
    if realm == "" {
      return Failed(NoRealm);
    }
    var nonce := GetAuthParameter("nonce", challenge);
    if nonce == "" {
      return Failed(NoNonce);
    }
    var c := Credentials(user.name, user.password, user.method_.value, user.SipUri(), qop, user.body,
                         realm, nonce, cnonce, nc);
    var response := CreateAuthResponse(ssl, a, user.authUri, c);
    if response.None? {
      return Failed(DigestFailed);
    }
    var result := PrintResult(c, response.value, algo);
    return Header(result + OpaqueTail(GetAuthParameter("opaque", challenge)));
  }

  method AppendQuoted(result: string, key: string, text: string, ghost items: seq<Item>) returns (r: string)
    requires items != [] && result == PrintHeader("Digest", items)
    ensures r == PrintHeader("Digest", items + [Plain(key, Quoted(text))])
  {
    var param := key + "=\"" + text + "\"";
    assert Plain(key, Quoted(text)).Print() == param;
    AppendItem(items, Plain(key, Quoted(text)));
    r := result + ("," + param);
  }

  method AppendBare(result: string, key: string, text: string, ghost items: seq<Item>) returns (r: string)
    requires items != [] && result == PrintHeader("Digest", items)
    ensures r == PrintHeader("Digest", items + [Plain(key, Bare(text))])
  {
    var param := key + "=" + text;
    assert Plain(key, Bare(text)).Print() == param;
    AppendItem(items, Plain(key, Bare(text)));
    r := result + ("," + param);
  }

  /** The parameters of an answer with a quality of protection. */
  method AppendQop(result: string, c: Credentials, ghost items: seq<Item>) returns (r: string)
    requires items != [] && result == PrintHeader("Digest", items)
    ensures r == PrintHeader("Digest", items + [Plain("cnonce", Quoted(c.cnonce)), Plain("nc", Bare(c.nc)),
                                                Plain("qop", Bare(c.qop))])
  {
    ghost var one := items + [Plain("cnonce", Quoted(c.cnonce))];
    ghost var two := one + [Plain("nc", Bare(c.nc))];
    r := AppendQuoted(result, "cnonce", c.cnonce, items);
    r := AppendBare(r, "nc", c.nc, one);
    r := AppendBare(r, "qop", c.qop, two);
    assert two + [Plain("qop", Bare(c.qop))]
        == items + [Plain("cnonce", Quoted(c.cnonce)), Plain("nc", Bare(c.nc)), Plain("qop", Bare(c.qop))];
  }

  /** The user, the realm and, if there is one, the quality of protection. */
  method PrintFront(c: Credentials) returns (result: string)
    ensures result == PrintHeader("Digest", HeaderFront(c))
  {
    result := "Digest username=\"" + c.user + "\"";
    UserAlone(c.user);
    ghost var items := [Param(" ", "username", "", "", Quoted(c.user))];
    result := AppendQuoted(result, "realm", c.realm, items);
    items := items + [Plain("realm", Quoted(c.realm))];
    if c.cnonce != "" {
      result := AppendQop(result, c, items);
      items := items + [Plain("cnonce", Quoted(c.cnonce)), Plain("nc", Bare(c.nc)), Plain("qop", Bare(c.qop))];
    }
    assert items == HeaderFront(c);
  }

  method PrintResult(c: Credentials, response: string, algo: string) returns (result: string)
    ensures result == PrintHeader("Digest", HeaderItems(c, response, algo))
  {
    result := PrintFront(c);
    ghost var front := HeaderFront(c);
    ghost var items := front;
    result := AppendQuoted(result, "uri", c.uri, items);
    items := items + [Plain("uri", Quoted(c.uri))];
    result := AppendQuoted(result, "nonce", c.nonce, items);
    items := items + [Plain("nonce", Quoted(c.nonce))];
    result := AppendQuoted(result, "response", response, items);
    items := items + [Plain("response", Quoted(response))];
    result := AppendBare(result, "algorithm", algo, items);
    items := items + [Plain("algorithm", Bare(algo))];
    assert items == front + [Plain("uri", Quoted(c.uri)), Plain("nonce", Quoted(c.nonce)),
                             Plain("response", Quoted(response)), Plain("algorithm", Bare(algo))];
  }

  lemma {:induction false} UserAlone(user: string)
    ensures PrintHeader("Digest", [Param(" ", "username", "", "", Quoted(user))])
         == "Digest username=\"" + user + "\""
  {
    var item := Param(" ", "username", "", "", Quoted(user));
    var value := "\"" + user + "\"";
    assert item.Print() == "username=" + value;
    assert [item][1..] == [];
    assert "Digest" + " " + ("username=" + value) + "" == "Digest username=" + value;
    assert "Digest username=" + value == "Digest username=\"" + user + "\"";
  }

  // Why an answer is accepted.

  lemma {:induction false} NoQuoteRead(name: string, header: string)
    ensures '"' !in GetAuthParameter(name, header)
  {
    var found := Scan(name, true, header, false);
    if found.Some? && !(found.value != "" && found.value[0] == '"') {
      NoQuoteUnquoted(found.value);
    }
  }

  lemma {:induction false} NoQuoteUnquoted(s: string)
    ensures '"' !in UnquotedValue(s)
  {
    if s != "" && !EndsValue(s[0]) {
      NoQuoteUnquoted(s[1..]);
    }
  }

  /** Text without quotes and backslashes is closed. */
  lemma {:induction false} PlainIsClosed(t: string)
    requires '"' !in t && '\\' !in t
    ensures Closed(t)
  {
    if t != "" {
      PlainIsClosed(t[1..]);
    }
  }

  lemma {:induction false} HexIsWord(s: string)
    requires IsHex(s)
    ensures WordChars(s) && Closed(s) && '"' !in s
  {
    forall i | 0 <= i < |s| ensures IsWordChar(s[i]) && s[i] != '\\' { assert IsHexDigit(s[i]); }
    PlainIsClosed(s);
  }

  /** The last parameter of the header hides nothing, even if a backslash ends it. */
  lemma {:induction false} OpaqueHoldsNone(name: string, text: string)
    requires IsWord(name) && '"' !in text && !EqualNoCase("opaque", name)
    ensures HoldsNone(name, OpaqueTail(text))
  {
    if text != "" {
      OpaqueText(text);
      OpaqueValue(name, text);
      ScanPastWord(name, "opaque", "=" + ("\"" + (text + "\"")));
    }
  }

  /** A comma and the name of another parameter. */
  lemma {:induction false} ScanPastWord(name: string, key: string, rest: string)
    requires IsWord(name) && IsWord(key) && !EqualNoCase(key, name)
    requires rest != "" && rest[0] == '='
    ensures Scan(name, false, "," + (key + rest), false) == Scan(name, false, rest, false)
  {
    var s := "," + (key + rest);
    NotNamedAt(name, s);
    assert s[1..] == key + rest;
    NamedAtWord(name, key, rest);
    ScanWord(name, key, rest);
  }

  lemma {:induction false} OpaqueText(text: string)
    requires text != ""
    ensures OpaqueTail(text) == "," + ("opaque" + ("=" + ("\"" + (text + "\""))))
  {
    var item := Plain("opaque", Quoted(text));
    assert [item][1..] == [];
    assert item.Print() == "opaque" + ("=" + ("\"" + (text + "\"")));
    assert PrintMore([item]) == "," + item.Print();
  }

  lemma {:induction false} OpaqueValue(name: string, text: string)
    requires IsWord(name) && '"' !in text
    ensures Scan(name, false, "=" + ("\"" + (text + "\"")), false) == None
  {
    var v := "\"" + (text + "\"");
    assert ("=" + v)[1..] == v && v[1..] == text + "\"";
    NotNamedAt(name, "=" + v);
    ScanToEnd(name, false, text);
  }

  lemma {:induction false} ScanToEnd(name: string, opens: bool, text: string)
    requires '"' !in text
    ensures Scan(name, opens, text + "\"", true) == None
    decreases |text|
  {
    var s := text + "\"";
    if text != "" {
      if text[0] == '\\' && |text| > 1 {
        assert s[2..] == text[2..] + "\"";
        ScanToEnd(name, OpensName(s[1]), text[2..]);
      } else if text[0] == '\\' {
        assert s[2..] == "";
      } else {
        assert s[1..] == text[1..] + "\"";
        ScanToEnd(name, OpensName(s[0]), text[1..]);
      }
    }
  }

  lemma {:induction false} LookupFirst(items: seq<Item>, name: string, k: nat)
    requires k < |items| && items[k].Names(name)
    requires forall j :: 0 <= j < k ==> !items[j].Names(name)
    ensures Lookup(items, name) == items[k].value.Read()
  {
    if k > 0 {
      assert !items[0].Names(name);
      LookupFirst(items[1..], name, k - 1);
    }
  }

  lemma {:induction false} LookupNone(items: seq<Item>, name: string)
    requires forall j :: 0 <= j < |items| ==> !items[j].Names(name)
    ensures Lookup(items, name) == ""
  {
    if items != [] {
      LookupNone(items[1..], name);
    }
  }

  /** Names of one length that begin with different letters differ, and so do
      names of different lengths. */
  predicate Differ(a: string, b: string) {
    a != "" && b != "" && (|a| != |b| || Lower(a[0]) != Lower(b[0]))
  }

  /** Every parameter of the header is the first of its name. */
  lemma {:induction false} HeaderLookup(c: Credentials, response: string, algo: string, k: nat)
    requires k < |HeaderItems(c, response, algo)|
    ensures var items := HeaderItems(c, response, algo);
      items[k].Param? && Lookup(items, items[k].key) == items[k].value.Read()
  {
    var items := HeaderItems(c, response, algo);
    HeaderKeys(c, response, algo);
    forall j | 0 <= j < k ensures !items[j].Names(items[k].key) {
      assert Differ(items[j].key, items[k].key);
    }
    LookupFirst(items, items[k].key, k);
  }

  lemma {:induction false} HeaderKeys(c: Credentials, response: string, algo: string)
    ensures var items := HeaderItems(c, response, algo);
      (forall k :: 0 <= k < |items| ==> items[k].Param?) &&
      forall j, k :: 0 <= j < k < |items| ==> Differ(items[j].key, items[k].key)
  {}

  /** Each parameter that a check reads, looked up in the list. */
  lemma {:induction false} HeaderLookups(c: Credentials, response: string, algo: string)
    ensures var items := HeaderItems(c, response, algo);
      Lookup(items, "realm") == UpTo(c.realm, '"') &&
      Lookup(items, "uri") == UpTo(c.uri, '"') &&
      Lookup(items, "nonce") == UpTo(c.nonce, '"') &&
      Lookup(items, "response") == UpTo(response, '"') &&
      Lookup(items, "algorithm") == algo
  {
    var n := if c.cnonce == "" then 2 else 5;
    HeaderLookup(c, response, algo, 1);
    HeaderLookup(c, response, algo, n);
    HeaderLookup(c, response, algo, n + 1);
    HeaderLookup(c, response, algo, n + 2);
    HeaderLookup(c, response, algo, n + 3);
  }

  /** Those that only an answer with a quality of protection has. */
  lemma {:induction false} QopLookups(c: Credentials, response: string, algo: string)
    requires c.cnonce != ""
    ensures var items := HeaderItems(c, response, algo);
      Lookup(items, "cnonce") == UpTo(c.cnonce, '"') &&
      Lookup(items, "nc") == c.nc &&
      Lookup(items, "qop") == c.qop
  {
    HeaderLookup(c, response, algo, 2);
    HeaderLookup(c, response, algo, 3);
    HeaderLookup(c, response, algo, 4);
  }

  lemma {:induction false} NoQopLookup(c: Credentials, response: string, algo: string, name: string)
    requires c.cnonce == "" && name in ["cnonce", "nc", "qop"]
    ensures Lookup(HeaderItems(c, response, algo), name) == ""
  {
    var items := HeaderItems(c, response, algo);
    forall j | 0 <= j < |items| ensures !items[j].Names(name) {
      assert Differ(items[j].key, name);
    }
    LookupNone(items, name);
  }

  /** What makes an answer one that can be read back: the user, the realm, the nonce
      and the URI are texts that a closing quote ends, the URI that the response is
      of has no quote, and the quality of protection is a word. A plain text without
      quotes and backslashes is such a text (PlainIsClosed). */
  predicate Readable(c: Credentials) {
    Closed(c.user) && Closed(c.realm) && Closed(c.nonce) && Closed(c.uri) && '"' !in c.uri &&
    (c.qop == "" || IsWord(c.qop))
  }

  /** Credentials as `createAuthHeaderDigest` makes them: a cnonce and a count with a
      quality of protection, neither without. */
  predicate Made(c: Credentials) {
    '"' !in c.realm && '"' !in c.nonce &&
    if c.qop == "" then c.cnonce == "" && c.nc == ""
    else c.cnonce != "" && IsHex(c.cnonce) && c.nc != "" && IsHex(c.nc)
  }

  lemma {:induction false} NamesAreWords()
    ensures IsWord("Digest") && IsWord("username") && IsWord("realm") && IsWord("cnonce") && IsWord("nc")
    ensures IsWord("qop") && IsWord("uri") && IsWord("nonce") && IsWord("response") && IsWord("algorithm")
  {}

  lemma {:induction false} PlainValid(key: string, value: Value)
    requires IsWord(key) && value.Valid()
    ensures Plain(key, value).Valid()
  {}

  lemma {:induction false} HeaderValid(c: Credentials, response: string, algo: string)
    requires Readable(c) && Made(c) && IsHex(response) && IsWord(algo)
    ensures ValidHeader("Digest", HeaderItems(c, response, algo))
  {
    NamesAreWords();
    HexIsWord(response);
    PlainValid("realm", Quoted(c.realm));
    PlainValid("uri", Quoted(c.uri));
    PlainValid("nonce", Quoted(c.nonce));
    PlainValid("response", Quoted(response));
    PlainValid("algorithm", Bare(algo));
    if c.cnonce != "" {
      HexIsWord(c.cnonce);
      HexIsWord(c.nc);
      PlainValid("cnonce", Quoted(c.cnonce));
      PlainValid("nc", Bare(c.nc));
      PlainValid("qop", Bare(c.qop));
    }
  }

  /** Everything a check reads from a printed header is what was printed. */
  lemma {:induction false} HeaderReadsBack(c: Credentials, response: string, algo: string, text: string)
    requires Readable(c) && Made(c) && IsHex(response) && IsWord(algo) && '"' !in text
    ensures var header := PrintHeader("Digest", HeaderItems(c, response, algo)) + OpaqueTail(text);
      GetAuthParameter("realm", header) == c.realm &&
      GetAuthParameter("uri", header) == c.uri &&
      GetAuthParameter("nonce", header) == c.nonce &&
      GetAuthParameter("response", header) == response &&
      GetAuthParameter("algorithm", header) == algo
  {
    var items := HeaderItems(c, response, algo);
    HeaderValid(c, response, algo);
    HeaderLookups(c, response, algo);
    HexIsWord(response);
    UpToNone(c.realm, '"');
    UpToNone(c.uri, '"');
    UpToNone(c.nonce, '"');
    UpToNone(response, '"');
    NamesAreWords();
    ReadsBack("realm", items, text);
    ReadsBack("uri", items, text);
    ReadsBack("nonce", items, text);
    ReadsBack("response", items, text);
    ReadsBack("algorithm", items, text);
  }

  lemma {:induction false} QopReadsBack(c: Credentials, response: string, algo: string, text: string)
    requires Readable(c) && Made(c) && IsHex(response) && IsWord(algo) && '"' !in text
    ensures var header := PrintHeader("Digest", HeaderItems(c, response, algo)) + OpaqueTail(text);
      GetAuthParameter("cnonce", header) == c.cnonce &&
      GetAuthParameter("nc", header) == c.nc &&
      GetAuthParameter("qop", header) == c.qop
  {
    var items := HeaderItems(c, response, algo);
    HeaderValid(c, response, algo);
    NamesAreWords();
    ReadsBack("cnonce", items, text);
    ReadsBack("nc", items, text);
    ReadsBack("qop", items, text);
    if c.cnonce == "" {
      NoQopLookup(c, response, algo, "cnonce");
      NoQopLookup(c, response, algo, "nc");
      NoQopLookup(c, response, algo, "qop");
    } else {
      QopLookups(c, response, algo);
      HexIsWord(c.cnonce);
      UpToNone(c.cnonce, '"');
    }
  }

  lemma {:induction false} ReadsBack(name: string, items: seq<Item>, text: string)
    requires IsWord(name) && ValidHeader("Digest", items) && '"' !in text
    requires Differ("opaque", name)
    ensures GetAuthParameter(name, PrintHeader("Digest", items) + OpaqueTail(text)) == Lookup(items, name)
  {
    OpaqueHoldsNone(name, text);
    LookupRoundTrip(name, "Digest", items, OpaqueTail(text));
  }

  /** What a check of credentials computes the response from, given those that the
      header was made from. */
  function CheckedAs(c: Credentials, user: string, password: string, method_: string, body: string): Credentials {
    c.(user := user, password := password, method_ := method_, body := body)
  }

  lemma {:induction false} AnswersMade(user: User, challenge: string)
    requires user.Valid() && user.method_.Some?
    ensures Made(Answers(user, challenge))
  {
    NoQuoteRead("realm", challenge);
    NoQuoteRead("nonce", challenge);
  }

  lemma {:induction false} StartsWithDigest(items: seq<Item>, tail: string)
    requires items != []
    ensures ContainsNoCase(PrintHeader("Digest", items) + tail, "Digest")
  {
    HeaderGrouped("Digest", items, tail);
    var header := PrintHeader("Digest", items) + tail;
    assert header[0..][..6] == "Digest";
  }

  /** A value that neither quotes nor a backslash nor a separator is in. */
  predicate PlainWord(w: string) {
    WordChars(w) && '\\' !in w
  }

  /** The names of the algorithms are words. */
  lemma {:induction false} AlgorithmIsPlain(algo: string)
    requires DigestAlgorithm(algo).Some?
    ensures PlainWord(algo) && IsWord(algo)
  {
    forall i | 0 <= i < |algo| ensures IsWordChar(algo[i]) && algo[i] != '\\' {
      var l := Lower(algo[i]);
      assert 'a' <= l <= 'z' || '0' <= l <= '9' || l == '-';
    }
  }

  /** A printed header passes a check, by any user, password, method and body, exactly
      when the response of those is the one in the header. */
  lemma {:induction false} CheckedByResponse(ssl: Ssl, a: Algorithm, authUri: Option<string>, c: Credentials,
                                             response: string, algo: string, text: string,
                                             user: string, password: string, method_: string, body: string)
    requires Readable(c) && Made(c) && IsHex(response) && response != "" && '"' !in text
    requires DigestAlgorithm(algo) == Some(a) && ssl.Has(a.hash) && (a.sess ==> c.cnonce != "")
    ensures var header := PrintHeader("Digest", HeaderItems(c, response, algo)) + OpaqueTail(text);
      VerifyAuthHeader(ssl, authUri, user, password, method_, header, body)
      <==> Response(ssl, a, authUri, CheckedAs(c, user, password, method_, body)) == Some(response)
  {
    AlgorithmIsPlain(algo);
    HeaderReadsBack(c, response, algo, text);
    QopReadsBack(c, response, algo, text);
    StartsWithDigest(HeaderItems(c, response, algo), OpaqueTail(text));
  }
}
