/** Digest credentials of any user name (src/auth.cpp): the printer does not escape quotes and
    backslashes, so a user name decides whether the check reads the parameters after it. */
module AuthUser {
  import opened Text
  import opened AuthParams
  import opened AuthDigest
  import opened DigestResponse

  /** Where a scan is after a text: outside a quoted string, inside one, or inside one just past
      a backslash. */
  datatype Place = Outside | Inside | Escaping

  function After(t: string, quoted: bool): Place
    decreases |t|
  {
    if t == "" then if quoted then Inside else Outside
    else if quoted && t[0] == '\\' then if |t| == 1 then Escaping else After(t[2..], true)
    else if t[0] == '"' then After(t[1..], !quoted)
    else After(t[1..], quoted)
  }

  /** A user name after which the quote that is written closes its string. */
  predicate Closes(user: string) {
    After(user, true) == Inside
  }

  /** A user name in which the scan finds no parameter of that name. */
  predicate Lacks(name: string, user: string) {
    Scan(name, false, user, true) == None
  }

  const NAMES := ["realm", "uri", "nonce", "response", "algorithm", "cnonce", "nc", "qop"]

  /** A user name in which the scan finds none of the parameters that the check reads. */
  predicate NamesNone(user: string) {
    forall i :: 0 <= i < |NAMES| ==> Lacks(NAMES[i], user)
  }

  // A text before a quote.

  /** A name is found before a quote without what is after the quote. */
  lemma {:induction false} NamedBeforeQuote(name: string, a: string, rest: string)
    requires IsWord(name)
    ensures NamedHere(name, a + "\"" + rest) <==> NamedHere(name, a)
  {
    var s := a + "\"" + rest;
    if |name| <= |a| {
      assert s[..|name|] == a[..|name|];
      assert s[|name|..] == a[|name|..] + ("\"" + rest);
      BlanksBeforeQuote(a[|name|..], "\"" + rest);
    } else if |name| <= |s| {
      assert IsWordChar(name[|a|]);
      assert s[..|name|][|a|] == '"';
      assert Lower(s[..|name|][|a|]) != Lower(name[|a|]);
    }
  }

  lemma {:induction false} QuoteIsNoBlank(r: string)
    requires r != "" && r[0] == '"'
    ensures DropBlanks(r) == r
  {
  }

  lemma {:induction false} BlanksBeforeQuote(a: string, r: string)
    requires r != "" && r[0] == '"'
    ensures DropBlanks(a + r) == if DropBlanks(a) == "" then r else DropBlanks(a) + r
  {
    if a == "" {
      assert a + r == r;
      QuoteIsNoBlank(r);
    } else if IsBlank(a[0]) {
      assert (a + r)[1..] == a[1..] + r;
      BlanksBeforeQuote(a[1..], r);
    }
  }

  /** A text that holds no parameter of the name, and the quote after it, are passed over. */
  lemma {:induction false} ScanOver(name: string, opens: bool, t: string, quoted: bool, rest: string)
    requires IsWord(name) && Scan(name, opens, t, quoted) == None
    ensures Scan(name, opens, t + "\"" + rest, quoted) == Scan(name, false, rest, After(t, quoted) != Inside)
    decreases |t|
  {
    var s := t + "\"" + rest;
    if t == "" {
      assert s[1..] == rest;
    } else if quoted && t[0] == '\\' && |t| == 1 {
      assert s[1] == '"' && s[2..] == rest;
    } else if quoted && t[0] == '\\' {
      assert s[2..] == t[2..] + "\"" + rest;
      ScanOver(name, OpensName(t[1]), t[2..], true, rest);
    } else {
      assert s[1..] == t[1..] + "\"" + rest;
      NamedBeforeQuote(name, t, rest);
      if t[0] == '"' {
        ScanOver(name, false, t[1..], !quoted, rest);
      } else {
        ScanOver(name, OpensName(t[0]), t[1..], quoted, rest);
      }
    }
  }

  /** Text whose quotes and backslashes are all escaped closes, and hides nothing. */
  lemma {:induction false} ClosedCloses(name: string, opens: bool, t: string)
    requires Closed(t)
    ensures Closes(t) && Scan(name, opens, t, true) == None
    decreases |t|
  {
    if t != "" {
      if t[0] == '\\' { ClosedCloses(name, OpensName(t[1]), t[2..]); }
      else { ClosedCloses(name, OpensName(t[0]), t[1..]); }
    }
  }

  /** A user name without quotes hides nothing, and closes exactly when it is closed. */
  lemma {:induction false} NoQuoteUser(name: string, opens: bool, t: string)
    requires '"' !in t
    ensures Scan(name, opens, t, true) == None && (Closes(t) <==> Closed(t))
    decreases |t|
  {
    if t != "" {
      if t[0] == '\\' && |t| > 1 { NoQuoteUser(name, OpensName(t[1]), t[2..]); }
      else { NoQuoteUser(name, OpensName(t[0]), t[1..]); }
    }
  }

  /** A name that ends in a lone backslash does not close. */
  lemma {:induction false} LoneBackslash(t: string)
    requires Closed(t)
    ensures !Closes(t + "\\")
    decreases |t|
  {
    var s := t + "\\";
    if t != "" {
      if t[0] == '\\' {
        assert s[2..] == t[2..] + "\\";
        LoneBackslash(t[2..]);
      } else {
        assert s[1..] == t[1..] + "\\";
        LoneBackslash(t[1..]);
      }
    }
  }

  // The header of a user, and of no user.

  function Header(c: Credentials, response: string, algo: string, text: string): string {
    PrintHeader("Digest", HeaderItems(c, response, algo)) + OpaqueTail(text)
  }

  /** The same credentials of a user with an empty name. */
  function Nameless(c: Credentials): Credentials {
    c.(user := "")
  }

  lemma {:induction false} UserText(c: Credentials, response: string, algo: string, tail: string)
    ensures var items := HeaderItems(c, response, algo);
      PrintHeader("Digest", items) + tail
      == "Digest" + (" " + ("username" + ("=" + ("\"" + (c.user + "\"" + (PrintMore(items[1..]) + tail))))))
  {
    var items := HeaderItems(c, response, algo);
    var item, rest := items[0], PrintMore(items[1..]) + tail;
    HeaderGrouped("Digest", items, tail);
    PrintParam(item, rest);
    Empty("=" + ("" + (item.value.Print() + rest)));
    Empty(item.value.Print() + rest);
    Assoc("\"" + c.user, "\"", rest);
    Assoc("\"", c.user, "\"" + rest);
    Assoc(c.user, "\"", rest);
  }

  lemma {:induction false} Empty(s: string)
    ensures "" + s == s
  {}

  /** The scan reaches the user, inside its quoted string. */
  lemma {:induction false} ScanUserStart(name: string, user: string)
    requires IsWord(name) && Differ("username", name)
    ensures Scan(name, true, "Digest" + (" " + ("username" + ("=" + ("\"" + user)))), false)
         == Scan(name, false, user, true)
  {
    var value := "\"" + user;
    var param := "username" + ("=" + value);
    assert param[0] == 'u';
    DropBlanksConcat(" ", param);
    NamesAreWords();
    NamedAtWord(name, "Digest", " " + param);
    ScanWord(name, "Digest", " " + param);
    ScanBlanks(name, false, " ", param);
    NamedAtWord(name, "username", "=" + value);
    ScanWord(name, "username", "=" + value);
    NotNamedAt(name, "=" + value);
    assert ("=" + value)[1..] == value && value[1..] == user;
  }

  /** After a user name without the parameter, the scan goes on outside quotes, or inside. */
  lemma {:induction false} ScanPastUser(name: string, c: Credentials, response: string, algo: string, text: string)
    requires IsWord(name) && Differ("username", name) && Lacks(name, c.user)
    ensures Scan(name, true, Header(c, response, algo, text), false)
         == Scan(name, false, PrintMore(HeaderItems(c, response, algo)[1..]) + OpaqueTail(text), !Closes(c.user))
  {
    var more := PrintMore(HeaderItems(c, response, algo)[1..]) + OpaqueTail(text);
    UserText(c, response, algo, OpaqueTail(text));
    ScanUserStart(name, c.user + "\"" + more);
    ScanOver(name, false, c.user, true, more);
  }

  /** What is read after a user name that closes and hides nothing is what is read after an
      empty one. */
  lemma {:induction false} ReadAsNameless(name: string, c: Credentials, response: string, algo: string, text: string)
    requires IsWord(name) && Differ("username", name) && Lacks(name, c.user) && Closes(c.user)
    ensures GetAuthParameter(name, Header(c, response, algo, text))
         == GetAuthParameter(name, Header(Nameless(c), response, algo, text))
  {
    ScanPastUser(name, c, response, algo, text);
    ScanPastUser(name, Nameless(c), response, algo, text);
    SameButUser(c, response, algo);
  }

  lemma {:induction false} SameButUser(c: Credentials, response: string, algo: string)
    ensures HeaderItems(c, response, algo)[1..] == HeaderItems(Nameless(c), response, algo)[1..]
  {
  }

  lemma {:induction false} NamesApart()
    ensures forall i :: 0 <= i < |NAMES| ==> IsWord(NAMES[i]) && Differ("username", NAMES[i])
  {
    NamesAreWords();
  }

  lemma {:induction false} AllReadAsNameless(c: Credentials, response: string, algo: string, text: string)
    requires NamesNone(c.user) && Closes(c.user)
    ensures forall i :: 0 <= i < |NAMES| ==>
      GetAuthParameter(NAMES[i], Header(c, response, algo, text))
      == GetAuthParameter(NAMES[i], Header(Nameless(c), response, algo, text))
  {
    NamesApart();
    forall i | 0 <= i < |NAMES|
      ensures GetAuthParameter(NAMES[i], Header(c, response, algo, text))
           == GetAuthParameter(NAMES[i], Header(Nameless(c), response, algo, text))
    {
      assert Lacks(NAMES[i], c.user);
      ReadAsNameless(NAMES[i], c, response, algo, text);
    }
  }

  /** A check only reads these parameters. */
  lemma {:induction false} CheckReadsNames(ssl: Ssl, authUri: Option<string>, h: string, g: string,
                                           user: string, password: string, method_: string, body: string)
    requires ContainsNoCase(h, "Digest") && ContainsNoCase(g, "Digest")
    requires forall i :: 0 <= i < |NAMES| ==> GetAuthParameter(NAMES[i], h) == GetAuthParameter(NAMES[i], g)
    ensures VerifyAuthHeader(ssl, authUri, user, password, method_, h, body)
       <==> VerifyAuthHeader(ssl, authUri, user, password, method_, g, body)
  {
    assert NAMES[0] == "realm" && NAMES[1] == "uri" && NAMES[2] == "nonce" && NAMES[3] == "response";
    assert NAMES[4] == "algorithm" && NAMES[5] == "cnonce" && NAMES[6] == "nc" && NAMES[7] == "qop";
  }

  /** A header printed for a user name that closes and hides nothing passes a check exactly when
      the response is the one in the header. */
  lemma {:induction false} CheckedByResponse(ssl: Ssl, a: Algorithm, authUri: Option<string>, c: Credentials,
                                             response: string, algo: string, text: string,
                                             user: string, password: string, method_: string, body: string)
    requires NamesNone(c.user) && Closes(c.user)
    requires Readable(Nameless(c)) && Made(c) && IsHex(response) && response != "" && '"' !in text
    requires DigestAlgorithm(algo) == Some(a) && ssl.Has(a.hash) && (a.sess ==> c.cnonce != "")
    ensures VerifyAuthHeader(ssl, authUri, user, password, method_, Header(c, response, algo, text), body)
       <==> Response(ssl, a, authUri, CheckedAs(c, user, password, method_, body)) == Some(response)
  {
    var n := Nameless(c);
    AllReadAsNameless(c, response, algo, text);
    StartsWithDigest(HeaderItems(c, response, algo), OpaqueTail(text));
    StartsWithDigest(HeaderItems(n, response, algo), OpaqueTail(text));
    CheckReadsNames(ssl, authUri, Header(c, response, algo, text), Header(n, response, algo, text),
                    user, password, method_, body);
    AuthDigest.CheckedByResponse(ssl, a, authUri, n, response, algo, text, user, password, method_, body);
    assert CheckedAs(n, user, password, method_, body) == CheckedAs(c, user, password, method_, body);
  }

  // A user name that does not close.

  /** A value in which no response is found when it is read outside quotes. */
  predicate Quiet(v: string) {
    '"' !in v && Scan("response", false, v, false) == None
  }

  lemma {:induction false} NoQuoteOutside(v: string)
    requires '"' !in v
    ensures After(v, false) == Outside
  {
    if v != "" { NoQuoteOutside(v[1..]); }
  }

  /** A text without quotes and backslashes inside a quoted string. */
  lemma {:induction false} ScanInside(name: string, opens: bool, t: string, rest: string)
    requires '"' !in t && '\\' !in t
    ensures Scan(name, opens, t + rest, true) == Scan(name, false, rest, true)
    decreases |t|
  {
    if t == "" {
      assert t + rest == rest;
    } else {
      assert (t + rest)[1..] == t[1..] + rest;
      ScanInside(name, OpensName(t[0]), t[1..], rest);
    }
  }

  /** A parameter that holds no response for a scan that takes its quotes for the other ones. */
  predicate QuietItem(item: Item) {
    item.Param? && item.lead == item.before == item.after == "" && PlainWord(item.key) &&
    match item.value
    case Quoted(text) => Quiet(text)
    case Bare(text) => PlainWord(text)
  }

  /** From inside a quoted string, such parameters only take the scan back inside one: the
      quotes around a value close and open it. */
  lemma {:induction false} ScanInverted(items: seq<Item>, tail: string)
    requires forall i :: 0 <= i < |items| ==> QuietItem(items[i])
    ensures Scan("response", false, PrintMore(items) + tail, true) == Scan("response", false, tail, true)
    decreases |items|
  {
    if items == [] {
      assert PrintMore(items) + tail == tail;
    } else {
      var item := items[0];
      assert QuietItem(item);
      var rest := PrintMore(items[1..]) + tail;
      var v := item.value.Print() + rest;
      PrintPlain(items, tail);
      ScanInside("response", false, ",", item.key + ("=" + v));
      PlainHasNoQuote(item.key);
      ScanInside("response", false, item.key, "=" + v);
      ScanInside("response", false, "=", v);
      ScanInvertedValue(item.value, rest);
      ScanInverted(items[1..], tail);
    }
  }

  lemma {:induction false} PrintPlain(items: seq<Item>, tail: string)
    requires items != [] && QuietItem(items[0])
    ensures PrintMore(items) + tail
         == "," + (items[0].key + ("=" + (items[0].value.Print() + (PrintMore(items[1..]) + tail))))
  {
    var item, rest := items[0], PrintMore(items[1..]) + tail;
    PrintMoreGrouped(items, tail);
    PrintParam(item, rest);
    Empty(item.Print() + rest);
    Empty("=" + ("" + (item.value.Print() + rest)));
    Empty(item.value.Print() + rest);
  }

  lemma {:induction false} PlainHasNoQuote(w: string)
    requires PlainWord(w)
    ensures '"' !in w
  {
    forall i | 0 <= i < |w| ensures w[i] != '"' { assert IsWordChar(w[i]); }
  }

  lemma {:induction false} ScanInvertedValue(value: Value, rest: string)
    requires match value case Quoted(text) => Quiet(text) case Bare(text) => PlainWord(text)
    ensures Scan("response", false, value.Print() + rest, true) == Scan("response", false, rest, true)
  {
    var t := value.text;
    match value
    case Bare(_) =>
      PlainHasNoQuote(t);
      ScanInside("response", false, t, rest);
    case Quoted(_) =>
      var s := value.Print() + rest;
      assert s[1..] == t + "\"" + rest;
      NamesAreWords();
      NoQuoteOutside(t);
      ScanOver("response", false, t, false, rest);
  }

  /** Values of which a check reads no response when it takes the quotes the other way: the
      realm, the nonce and the URI, and a quality of protection that is a plain word. */
  predicate QuietButUser(c: Credentials) {
    Quiet(c.realm) && Quiet(c.nonce) && Quiet(c.uri) && PlainWord(c.qop)
  }

  lemma {:induction false} HexIsQuiet(s: string)
    requires IsHex(s)
    ensures Quiet(s) && PlainWord(s)
  {
    forall i | 0 <= i < |s| ensures IsWordChar(s[i]) && s[i] != '\\' && s[i] != '"' { assert IsHexDigit(s[i]); }
    ScanInWord("response", s, "");
    assert s + "" == s;
  }

  lemma {:induction false} KeysArePlain()
    ensures PlainWord("realm") && PlainWord("cnonce") && PlainWord("nc") && PlainWord("qop") && PlainWord("uri")
    ensures PlainWord("nonce") && PlainWord("response") && PlainWord("algorithm") && PlainWord("opaque")
  {
  }

  /** A value that leaves the scan inside a quoted string. */
  predicate Opens(value: Value) {
    value.Quoted? && !Closed(value.text)
  }

  predicate AnyOpens(items: seq<Item>) {
    items != [] && ((items[0].Param? && Opens(items[0].value)) || AnyOpens(items[1..]))
  }

  /** A quiet parameter of another name. */
  predicate QuietOther(item: Item) {
    QuietItem(item) && IsWord(item.key) && Differ(item.key, "response")
  }

  /** Outside quotes, it is passed over up to its value. */
  lemma {:induction false} ScanToValue(key: string, v: string)
    requires IsWord(key) && Differ(key, "response")
    ensures Scan("response", false, "," + (key + ("=" + v)), false) == Scan("response", false, v, false)
  {
    var name, s := "response", "," + (key + ("=" + v));
    NamesAreWords();
    assert s[1..] == key + ("=" + v) && ("=" + v)[1..] == v;
    NamedAtWord(name, key, "=" + v);
    ScanWord(name, key, "=" + v);
    NotNamedAt(name, "=" + v);
  }

  /** And then its value is, to inside a quoted string if that opens it. */
  lemma {:induction false} ScanPastValue(value: Value, rest: string)
    requires match value case Quoted(text) => Quiet(text) case Bare(text) => PlainWord(text)
    ensures Scan("response", false, value.Print() + rest, false) == Scan("response", false, rest, Opens(value))
  {
    match value
    case Bare(t) => ScanInWord("response", t, rest);
    case Quoted(t) =>
      assert (value.Print() + rest)[1..] == t + "\"" + rest;
      NamesAreWords();
      NoQuoteUser("response", false, t);
      ScanOver("response", false, t, true, rest);
  }

  lemma {:induction false} ScanPastItems(items: seq<Item>, tail: string, quoted: bool)
    requires forall i :: 0 <= i < |items| ==> QuietOther(items[i])
    ensures Scan("response", false, PrintMore(items) + tail, quoted)
         == Scan("response", false, tail, quoted || AnyOpens(items))
    decreases |items|
  {
    if quoted {
      ScanInverted(items, tail);
    } else if items == [] {
      assert PrintMore(items) + tail == tail;
    } else {
      assert QuietOther(items[0]);
      var rest := PrintMore(items[1..]) + tail;
      PrintPlain(items, tail);
      ScanToValue(items[0].key, items[0].value.Print() + rest);
      ScanPastValue(items[0].value, rest);
      ScanPastItems(items[1..], tail, Opens(items[0].value));
    }
  }

  /** The parameters between the user's and the response. */
  function Between(c: Credentials): seq<Item> {
    HeaderFront(c)[1..] + [Plain("uri", Quoted(c.uri)), Plain("nonce", Quoted(c.nonce))]
  }

  function Last(response: string, algo: string): seq<Item> {
    [Plain("response", Quoted(response)), Plain("algorithm", Bare(algo))]
  }

  lemma {:induction false} PrintConcat(a: seq<Item>, b: seq<Item>, tail: string)
    ensures PrintMore(a + b) + tail == PrintMore(a) + (PrintMore(b) + tail)
  {
    if a == [] {
      assert a + b == b;
      Empty(PrintMore(b) + tail);
    } else {
      assert (a + b)[1..] == a[1..] + b;
      PrintMoreGrouped(a + b, tail);
      PrintMoreGrouped(a, PrintMore(b) + tail);
      PrintConcat(a[1..], b, tail);
    }
  }

  lemma {:induction false} BetweenIsQuiet(c: Credentials)
    requires QuietButUser(c) && Made(c)
    ensures forall i :: 0 <= i < |Between(c)| ==> QuietOther(Between(c)[i])
  {
    KeysArePlain();
    NamesAreWords();
    HexIsQuiet(c.cnonce);
    HexIsQuiet(c.nc);
  }

  lemma {:induction false} OpensConcat(a: seq<Item>, b: seq<Item>)
    ensures AnyOpens(a + b) <==> AnyOpens(a) || AnyOpens(b)
  {
    if a == [] {
      assert a + b == b;
    } else {
      assert (a + b)[1..] == a[1..] + b;
      OpensConcat(a[1..], b);
    }
  }

  lemma {:induction false} OpensOne(item: Item)
    ensures AnyOpens([item]) <==> item.Param? && Opens(item.value)
  {
  }

  /** The credentials whose values all close. */
  predicate AllClose(c: Credentials) {
    Closes(c.user) && Closed(c.realm) && Closed(c.uri) && Closed(c.nonce)
  }

  lemma {:induction false} BetweenOpens(c: Credentials)
    requires Made(c)
    ensures AnyOpens(Between(c)) <==> !Closed(c.realm) || !Closed(c.uri) || !Closed(c.nonce)
  {
    var realm, uri := Plain("realm", Quoted(c.realm)), Plain("uri", Quoted(c.uri));
    var nonce := Plain("nonce", Quoted(c.nonce));
    var qop := if c.cnonce == "" then []
               else [Plain("cnonce", Quoted(c.cnonce)), Plain("nc", Bare(c.nc)), Plain("qop", Bare(c.qop))];
    assert Between(c) == ([realm] + qop) + ([uri] + [nonce]);
    OpensConcat([realm] + qop, [uri] + [nonce]);
    OpensConcat([realm], qop);
    OpensConcat([uri], [nonce]);
    OpensOne(realm);
    OpensOne(uri);
    OpensOne(nonce);
    QopCloses(c, qop);
  }

  lemma {:induction false} QopCloses(c: Credentials, qop: seq<Item>)
    requires Made(c)
    requires qop == if c.cnonce == "" then []
                    else [Plain("cnonce", Quoted(c.cnonce)), Plain("nc", Bare(c.nc)), Plain("qop", Bare(c.qop))]
    ensures !AnyOpens(qop)
  {
    HexIsQuiet(c.cnonce);
    PlainIsClosed(c.cnonce);
    if qop != [] { OpensOne(qop[2]); assert qop[1..][1..] == [qop[2]]; }
  }

  lemma {:induction false} ScanPastBetween(c: Credentials, rest: string, quoted: bool)
    requires QuietButUser(c) && Made(c)
    ensures Scan("response", false, PrintMore(Between(c)) + rest, quoted)
         == Scan("response", false, rest, quoted || !Closed(c.realm) || !Closed(c.uri) || !Closed(c.nonce))
  {
    BetweenIsQuiet(c);
    BetweenOpens(c);
    ScanPastItems(Between(c), rest, quoted);
  }

  lemma {:induction false} HeaderSplit(c: Credentials, response: string, algo: string, tail: string)
    ensures PrintMore(HeaderItems(c, response, algo)[1..]) + tail
         == PrintMore(Between(c)) + (PrintMore(Last(response, algo)) + tail)
  {
    assert HeaderItems(c, response, algo)[1..] == Between(c) + Last(response, algo);
    PrintConcat(Between(c), Last(response, algo), tail);
  }

  /** The scan reaches the response inside a quoted string if a value before it does not close. */
  lemma {:induction false} ScanToLast(c: Credentials, response: string, algo: string, text: string)
    requires QuietButUser(c) && Lacks("response", c.user) && Made(c)
    ensures Scan("response", true, Header(c, response, algo, text), false)
         == Scan("response", false, PrintMore(Last(response, algo)) + OpaqueTail(text), !AllClose(c))
  {
    NamesAreWords();
    ScanPastUser("response", c, response, algo, text);
    HeaderSplit(c, response, algo, OpaqueTail(text));
    ScanPastBetween(c, PrintMore(Last(response, algo)) + OpaqueTail(text), !Closes(c.user));
  }

  /** A value that does not close, whichever it is, hides the response. */
  lemma {:induction false} OpenValueHides(c: Credentials, response: string, algo: string, text: string)
    requires QuietButUser(c) && Lacks("response", c.user) && !AllClose(c) && Made(c)
    requires IsHex(response) && PlainWord(algo) && Quiet(text)
    ensures GetAuthParameter("response", Header(c, response, algo, text)) == ""
  {
    ScanToLast(c, response, algo, text);
    LastIsQuiet(response, algo);
    ScanInverted(Last(response, algo), OpaqueTail(text));
    OpaqueInverted(text);
  }

  lemma {:induction false} LastIsQuiet(response: string, algo: string)
    requires IsHex(response) && PlainWord(algo)
    ensures forall i :: 0 <= i < |Last(response, algo)| ==> QuietItem(Last(response, algo)[i])
  {
    KeysArePlain();
    HexIsQuiet(response);
  }

  lemma {:induction false} OpaqueInverted(text: string)
    requires Quiet(text)
    ensures Scan("response", false, OpaqueTail(text), true) == None
  {
    if text != "" {
      var item := Plain("opaque", Quoted(text));
      assert QuietItem(item);
      assert PrintMore([item]) + "" == PrintMore([item]);
      ScanInverted([item], "");
    }
  }

  // The round trip of any user name.

  /** What is printed for the user is accepted of the user. */
  predicate Accepted(ssl: Ssl, user: User, challenge: string, akaKey: bool)
    requires user.Valid()
  {
    var answer := CreateAuthHeader(ssl, user, challenge, akaKey);
    answer.Header? && user.method_.Some? &&
    VerifyAuthHeader(ssl, user.authUri, user.name, user.password, user.method_.value, answer.text, user.body)
  }

  lemma {:induction false} ClosesAccepted(ssl: Ssl, user: User, challenge: string, akaKey: bool)
    requires user.Valid() && CreateAuthHeader(ssl, user, challenge, akaKey).Header? && NamesNone(user.name)
    requires Readable(Nameless(Answers(user, challenge))) && Closes(user.name)
    ensures Accepted(ssl, user, challenge, akaKey)
  {
    var c := Answers(user, challenge);
    var algo := AlgorithmName(challenge);
    var a := DigestAlgorithm(algo).value;
    var response := Response(ssl, a, user.authUri, c).value;
    AnswersMade(user, challenge);
    NoQuoteRead("opaque", challenge);
    assert CheckedAs(c, user.name, user.password, user.method_.value, user.body) == c;
    CheckedByResponse(ssl, a, user.authUri, c, response, algo, GetAuthParameter("opaque", challenge),
                      user.name, user.password, user.method_.value, user.body);
  }

  /** The round trip: the header that answers a challenge is accepted from the user that it was
      made for. */
  lemma {:induction false} CredentialsAccepted(ssl: Ssl, user: User, challenge: string, akaKey: bool)
    requires user.Valid()
    ensures CreateAuthHeader(ssl, user, challenge, akaKey).Header? && Readable(Answers(user, challenge)) ==>
      Accepted(ssl, user, challenge, akaKey)
  {
    if CreateAuthHeader(ssl, user, challenge, akaKey).Header? && Readable(Answers(user, challenge)) {
      forall i | 0 <= i < |NAMES| ensures Lacks(NAMES[i], user.name) { ClosedCloses(NAMES[i], false, user.name); }
      ClosedCloses("response", false, user.name);
      ClosesAccepted(ssl, user, challenge, akaKey);
    }
  }

  /** The values but the user's hold no quote and no response. */
  predicate Sound(c: Credentials, text: string) {
    QuietButUser(c) && Quiet(text)
  }

  lemma {:induction false} OpenRefused(ssl: Ssl, user: User, challenge: string, akaKey: bool)
    requires user.Valid() && CreateAuthHeader(ssl, user, challenge, akaKey).Header? && Lacks("response", user.name)
    requires Sound(Answers(user, challenge), GetAuthParameter("opaque", challenge))
    requires !AllClose(Answers(user, challenge))
    ensures !Accepted(ssl, user, challenge, akaKey)
  {
    var c := Answers(user, challenge);
    var algo := AlgorithmName(challenge);
    var response := Response(ssl, DigestAlgorithm(algo).value, user.authUri, c).value;
    AnswersMade(user, challenge);
    AlgorithmIsPlain(algo);
    OpenValueHides(c, response, algo, GetAuthParameter("opaque", challenge));
  }

  /** For every user name in which the check finds none of its parameters, the header printed
      for the user is accepted if and only if the quotes written after the user name, the realm,
      the URI and the nonce close them. */
  lemma {:induction false} AcceptedIffAllClose(ssl: Ssl, user: User, challenge: string, akaKey: bool)
    requires user.Valid()
    ensures CreateAuthHeader(ssl, user, challenge, akaKey).Header? && NamesNone(user.name) &&
            Sound(Answers(user, challenge), GetAuthParameter("opaque", challenge)) ==>
      (Accepted(ssl, user, challenge, akaKey) <==> AllClose(Answers(user, challenge)))
  {
    if CreateAuthHeader(ssl, user, challenge, akaKey).Header? && NamesNone(user.name) &&
       Sound(Answers(user, challenge), GetAuthParameter("opaque", challenge)) {
      if AllClose(Answers(user, challenge)) {
        ClosesAccepted(ssl, user, challenge, akaKey);
      } else {
        NamesResponse(user.name);
        OpenRefused(ssl, user, challenge, akaKey);
      }
    }
  }

  lemma {:induction false} NamesResponse(user: string)
    requires NamesNone(user)
    ensures Lacks("response", user)
  {
    assert NAMES[3] == "response";
  }

  // Credentials that are refused.

  /** The parameters of the challenge `Digest realm="r",nonce="n"`. */
  function Items(): seq<Item> {
    [Param(" ", "realm", "", "", Quoted("r")), Plain("nonce", Quoted("n"))]
  }

  function Challenge(): string {
    PrintHeader("Digest", Items())
  }

  /** What a parameter of it is. */
  predicate IsIn(name: string, value: string) {
    (name == "realm" && value == "r") || (name == "nonce" && value == "n") ||
    (Differ("realm", name) && Differ("nonce", name) && value == "")
  }

  lemma {:induction false} ItemsLookup(name: string, value: string)
    requires IsIn(name, value)
    ensures Lookup(Items(), name) == value
  {
    var items := Items();
    assert items[1..] == [items[1]] && [items[1]][1..] == [];
    assert items[0].value.Read() == "r" && items[1].value.Read() == "n";
    assert Differ("realm", name) ==> !EqualNoCase("realm", name);
    assert Differ("nonce", name) ==> !EqualNoCase("nonce", name);
    assert Differ("realm", "nonce");
    assert Lookup([], name) == "";
    assert Lookup([items[1]], name) == if items[1].Names(name) then "n" else "";
  }

  lemma {:induction false} ChallengeRead(name: string, value: string)
    requires IsWord(name) && IsIn(name, value)
    ensures GetAuthParameter(name, Challenge()) == value
  {
    NamesAreWords();
    PlainValid("nonce", Quoted("n"));
    assert Items()[0].Valid() && Items()[1].Valid();
    assert Challenge() + "" == Challenge();
    ScanJunk(name, false, "");
    LookupRoundTrip(name, "Digest", Items(), "");
    ItemsLookup(name, value);
  }

  /** A library that computes MD5. */
  ghost predicate Computes(ssl: Ssl) {
    forall t :: ssl.digest(Md5, t).Some? && |ssl.digest(Md5, t).value| == 16
  }

  lemma {:induction false} ResponseComputed(ssl: Ssl, authUri: Option<string>, c: Credentials)
    requires Computes(ssl)
    ensures Response(ssl, Algorithm(Md5, false), authUri, c).Some?
  {
  }

  lemma {:induction false} ChallengeValues()
    ensures GetAuthParameter("realm", Challenge()) == "r" && GetAuthParameter("nonce", Challenge()) == "n"
    ensures GetAuthParameter("qop", Challenge()) == GetAuthParameter("algorithm", Challenge()) == ""
    ensures GetAuthParameter("opaque", Challenge()) == ""
  {
    NamesAreWords();
    assert IsWord("opaque");
    ChallengeRead("realm", "r");
    ChallengeRead("nonce", "n");
    ChallengeRead("qop", "");
    ChallengeRead("algorithm", "");
    ChallengeRead("opaque", "");
  }

  lemma {:induction false} ChallengeIsDigest()
    ensures ContainsNoCase(Challenge(), "Digest")
  {
    StartsWithDigest(Items(), "");
    assert Challenge() + "" == Challenge();
  }

  lemma {:induction false} ChallengeAnswered(ssl: Ssl, user: User, akaKey: bool, text: string)
    requires user.Valid() && user.method_.Some? && Computes(ssl) && ContainsNoCase(text, "Digest")
    requires GetAuthParameter("realm", text) != "" && GetAuthParameter("nonce", text) != ""
    requires GetAuthParameter("algorithm", text) == ""
    ensures CreateAuthHeader(ssl, user, text, akaKey).Header?
  {
    ResponseComputed(ssl, user.authUri, Answers(user, text));
  }

  /** The user name of one backslash: its credentials are made, and refused. */
  lemma {:induction false} BackslashRefused(ssl: Ssl, user: User, akaKey: bool)
    requires user.Valid() && user.method_.Some? && user.name == "\\" && Quiet(user.SipUri()) && Computes(ssl)
    ensures CreateAuthHeader(ssl, user, Challenge(), akaKey).Header? && !Accepted(ssl, user, Challenge(), akaKey)
  {
    ChallengeValues();
    ChallengeIsDigest();
    ChallengeAnswered(ssl, user, akaKey, Challenge());
    LoneBackslash("");
    NoQuoteUser("response", false, user.name);
    ShortIsQuiet("r");
    ShortIsQuiet("n");
    OpenRefused(ssl, user, Challenge(), akaKey);
  }

  lemma {:induction false} ShortIsQuiet(v: string)
    requires v == "r" || v == "n"
    ensures Quiet(v)
  {
    NamesAreWords();
    ScanInWord("response", v, "");
    assert v + "" == v;
  }
}
