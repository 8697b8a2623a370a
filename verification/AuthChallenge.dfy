/** Which challenge of a WWW-Authenticate or Proxy-Authenticate header is answered:
    the splitter and the selection of src/auth.cpp. */
module AuthChallenge {
  import opened Text
  import opened AuthParams
  import opened AuthDigest
  import opened DigestResponse

  /** The word that ends at a blank, '=' or ','. */
  function Scheme(t: string): (w: string)
    ensures |w| <= |t|
  {
    if t == "" || IsBlank(t[0]) || t[0] == '=' || t[0] == ',' then "" else [t[0]] + Scheme(t[1..])
  }

  /** Whether a challenge starts at `t`: a word, blanks, then neither '=' nor ','. */
  predicate StartsChallenge(t: string) {
    var w := Scheme(t);
    var more := DropBlanks(t[|w|..]);
    w != "" && |more| < |t| - |w| && more != "" && more[0] != '=' && more[0] != ','
  }

  /** What is left of the text at the next challenge, from a point of the scan. */
  function Next(s: string, quoted: bool): (r: Option<string>)
    ensures r.Some? ==> |r.value| < |s|
    decreases |s|
  {
    if s == "" then None
    else if quoted && s[0] == '\\' && |s| > 1 then Next(s[2..], true)
    else if s[0] == '"' then Next(s[1..], !quoted)
    else if s[0] == ',' && !quoted && StartsChallenge(DropBlanks(s[1..])) then Some(DropBlanks(s[1..]))
    else Next(s[1..], quoted)
  }

  /** Whether a digest challenge can be answered: a known algorithm that the library
      has, and a quality of protection for a -sess one. */
  predicate CanAnswer(ssl: Ssl, algo: string, qop: string) {
    algo == "" || EqualNoCase(algo, "AKAv1-MD5") ||
    var a := DigestAlgorithm(algo);
    a.Some? && ssl.Has(a.value.hash) && (!a.value.sess || qop != "")
  }

  /** An algorithm of SHA-512/256 can be answered exactly if the library has it, a -sess one only
      with a quality of protection, and no algorithm, or an AKA one, always. */
  lemma {:induction false} LibraryDecides(ssl: Ssl, qop: string)
    ensures CanAnswer(ssl, "SHA-512-256", qop) <==> ssl.hasSha512_256
    ensures CanAnswer(ssl, "SHA-512-256-sess", qop) <==> ssl.hasSha512_256 && qop != ""
    ensures CanAnswer(ssl, "MD5", qop) && CanAnswer(ssl, "SHA-256", qop) && CanAnswer(ssl, "", qop)
    ensures CanAnswer(ssl, "AKAv1-MD5", qop) && (CanAnswer(ssl, "MD5-sess", qop) <==> qop != "")
    ensures !CanAnswer(ssl, "SHA-1", qop)
  {
    ByName("SHA-512-256", Algorithm(Sha512_256, false));
    ByName("SHA-512-256-sess", Algorithm(Sha512_256, true));
    ByName("MD5", Algorithm(Md5, false));
    ByName("SHA-256", Algorithm(Sha256, false));
    ByName("MD5-sess", Algorithm(Md5, true));
    assert EqualNoCase("AKAv1-MD5", "AKAv1-MD5");
  }

  lemma {:induction false} ByName(name: string, a: Algorithm)
    requires name == AlgorithmText(a)
    ensures DigestAlgorithm(name) == Some(a)
  {
    AlgorithmByName(name, a);
    assert EqualNoCase(name, name);
  }

  predicate Answerable(ssl: Ssl, challenge: string) {
    CanAnswer(ssl, GetAuthParameter("algorithm", challenge), GetAuthParameter("qop", challenge))
  }

  /** Whether the text starts with the Digest scheme. */
  predicate IsDigest(s: string) {
    |s| > 6 && EqualNoCase(s[..6], "Digest") && IsSpace(s[6])
  }

  /** The text without the commas and blanks it ends with. */
  function Trim(s: string): (t: string)
    ensures |t| <= |s| && t == s[..|t|] && AllJunk(s[|t|..])
    ensures t == "" || !IsJunk(t[|t| - 1])
  {
    if s != "" && IsJunk(s[|s| - 1]) then
      var t := Trim(s[..|s| - 1]);
      assert s[..|s| - 1][..|t|] == s[..|t|];
      assert s[|t|..] == s[..|s| - 1][|t|..] + [s[|s| - 1]];
      t
    else s
  }

  /** The challenge at the start of `s`, up to the next one. */
  function FirstOf(s: string): string {
    match Next(s, false)
    case None => s
    case Some(next) => s[..|s| - |next|]
  }

  /** The challenge to answer from `s` on, not trimmed: the first digest one that can
      be answered. */
  function Chosen(ssl: Ssl, s: string): Option<string>
    decreases |s|
  {
    if IsDigest(s) && Answerable(ssl, FirstOf(s)) then Some(FirstOf(s))
    else match Next(s, false)
      case None => None
      case Some(next) => Chosen(ssl, next)
  }

  /** What is left of `s` past its leading spaces and tabs. */
  function DropSpaces(s: string): string {
    if s != "" && (s[0] == ' ' || s[0] == '\t') then DropSpaces(s[1..]) else s
  }

  /** `selectAuthChallenge`. */
  function SelectAuthChallenge(ssl: Ssl, auth: string): string {
    match Chosen(ssl, DropSpaces(auth))
    case None => auth
    case Some(challenge) => Trim(challenge)
  }

  // Lists of challenges.

  datatype Challenge = Challenge(scheme: string, items: seq<Item>)
  {
    predicate Valid() {
      ValidHeader(scheme, items)
    }

    function Print(): string
      requires Valid()
    {
      PrintHeader(scheme, items)
    }

    /** Whether it is a digest challenge that can be answered, by its parameters. */
    predicate Good(ssl: Ssl) {
      EqualNoCase(scheme, "Digest") && CanAnswer(ssl, Lookup(items, "algorithm"), Lookup(items, "qop"))
    }
  }

  predicate ValidChallenges(cs: seq<Challenge>) {
    forall i :: 0 <= i < |cs| ==> cs[i].Valid()
  }

  /** What may come after a list: commas and blanks, not from a tab on. */
  predicate IsEnd(junk: string) {
    AllJunk(junk) && (junk == "" || junk[0] != '\t')
  }

  lemma {:induction false} EndEnds(junk: string)
    requires IsEnd(junk)
    ensures EndsItem(junk)
  {
    DropBlanksOfJunk(junk);
  }

  /** A list of challenges, and what comes after it. */
  function Join(cs: seq<Challenge>, junk: string): string
    requires ValidChallenges(cs) && cs != []
  {
    if |cs| == 1 then cs[0].Print() + junk else cs[0].Print() + ", " + Join(cs[1..], junk)
  }

  // The scan of a printed list of challenges, piece by piece.

  /** A text without commas and quotes is passed over. */
  lemma {:induction false} NextPlain(t: string, rest: string)
    requires ',' !in t && '"' !in t
    ensures Next(t + rest, false) == Next(rest, false)
  {
    if t == "" {
      assert t + rest == rest;
    } else {
      assert (t + rest)[1..] == t[1..] + rest;
      NextPlain(t[1..], rest);
    }
  }

  /** So is a quoted text, with its closing quote. */
  lemma {:induction false} NextQuoted(t: string, rest: string)
    requires Closed(t)
    ensures Next(t + "\"" + rest, true) == Next(rest, false)
    decreases |t|
  {
    var s := t + "\"" + rest;
    if t == "" {
      assert s[1..] == rest;
    } else if t[0] == '\\' {
      assert s[2..] == t[2..] + "\"" + rest;
      NextQuoted(t[2..], rest);
    } else {
      assert s[1..] == t[1..] + "\"" + rest;
      NextQuoted(t[1..], rest);
    }
  }

  lemma {:induction false} WordHasNoSeparator(w: string)
    requires WordChars(w)
    ensures ',' !in w && '"' !in w
  {
    forall i | 0 <= i < |w| ensures w[i] != ',' && w[i] != '"' { assert IsWordChar(w[i]); }
  }

  /** An element of a list holds no boundary. */
  lemma {:induction false} NextItem(item: Item, rest: string)
    requires item.Valid()
    ensures Next(item.Print() + rest, false) == Next(rest, false)
  {
    match item
    case Word(_, w) =>
      WordHasNoSeparator(w);
      NextPlain(w, rest);
    case Param(_, key, before, after, value) =>
      PrintParam(item, rest);
      var v := value.Print() + rest;
      WordHasNoSeparator(key);
      NextPlain(key, before + ("=" + (after + v)));
      NextPlain(before, "=" + (after + v));
      NextPlain("=", after + v);
      NextPlain(after, v);
      NextValue(value, rest);
  }

  lemma {:induction false} NextValue(value: Value, rest: string)
    requires value.Valid()
    ensures Next(value.Print() + rest, false) == Next(rest, false)
  {
    match value
    case Bare(text) =>
      WordHasNoSeparator(text);
      NextPlain(text, rest);
    case Quoted(text) =>
      var s := value.Print() + rest;
      assert s[1..] == text + "\"" + rest;
      NextQuoted(text, rest);
  }

  lemma {:induction false} SchemeOfWord(w: string, rest: string)
    requires WordChars(w)
    requires rest == "" || IsBlank(rest[0]) || rest[0] == '=' || rest[0] == ','
    ensures Scheme(w + rest) == w
  {
    if w == "" {
      assert w + rest == rest;
    } else {
      assert IsWordChar(w[0]);
      assert (w + rest)[1..] == w[1..] + rest;
      SchemeOfWord(w[1..], rest);
    }
  }

  /** An element of a list starts no challenge. */
  lemma {:induction false} ItemIsNoChallenge(item: Item, rest: string)
    requires item.Valid()
    requires EndsItem(rest)
    ensures !StartsChallenge(item.Print() + rest)
  {
    match item
    case Word(_, w) =>
      SchemeOfWord(w, rest);
      assert (w + rest)[|w|..] == rest;
    case Param(_, key, before, after, value) =>
      var u := "=" + (after + (value.Print() + rest));
      PrintParam(item, rest);
      SchemeOfWord(key, before + u);
      assert (key + (before + u))[|key|..] == before + u;
      DropBlanksConcat(before, u);
  }

  /** A scheme, blanks and an element start one. */
  lemma {:induction false} ChallengeStarts(scheme: string, lead: string, t: string)
    requires IsWord(scheme) && AllBlank(lead) && lead != ""
    requires t != "" && IsWordChar(t[0])
    ensures StartsChallenge(scheme + (lead + t))
  {
    SchemeOfWord(scheme, lead + t);
    assert (scheme + (lead + t))[|scheme|..] == lead + t;
    DropBlanksConcat(lead, t);
  }

  lemma {:induction false} NextMore(items: seq<Item>, rest: string)
    requires ValidItems(items)
    requires EndsItem(rest)
    ensures Next(PrintMore(items) + rest, false) == Next(rest, false)
  {
    if items == [] {
      assert PrintMore(items) + rest == rest;
    } else {
      var item := items[0];
      assert item.Valid();
      var more := PrintMore(items[1..]) + rest;
      PrintMoreGrouped(items, rest);
      MoreEndsItem(items[1..], rest);
      NextComma(item, more);
      NextMore(items[1..], rest);
    }
  }

  lemma {:induction false} NextComma(item: Item, more: string)
    requires item.Valid()
    requires EndsItem(more)
    ensures Next("," + (item.lead + (item.Print() + more)), false) == Next(more, false)
  {
    var s := "," + (item.lead + (item.Print() + more));
    assert s[1..] == item.lead + (item.Print() + more);
    ItemStart(item, more);
    DropBlanksConcat(item.lead, item.Print() + more);
    ItemIsNoChallenge(item, more);
    NextPlain(item.lead, item.Print() + more);
    NextItem(item, more);
  }

  /** A challenge holds no boundary. */
  lemma {:induction false} NextPast(c: Challenge, rest: string)
    requires c.Valid()
    requires EndsItem(rest)
    ensures Next(c.Print() + rest, false) == Next(rest, false)
  {
    var item := c.items[0];
    assert item.Valid();
    var more := PrintMore(c.items[1..]) + rest;
    HeaderGrouped(c.scheme, c.items, rest);
    WordHasNoSeparator(c.scheme);
    NextPlain(c.scheme, item.lead + (item.Print() + more));
    NextPlain(item.lead, item.Print() + more);
    NextItem(item, more);
    NextMore(c.items[1..], rest);
  }

  /** Between two challenges is one. */
  lemma {:induction false} NextAt(c: Challenge, rest: string)
    requires c.Valid()
    ensures Next(", " + (c.Print() + rest), false) == Some(c.Print() + rest)
  {
    var item := c.items[0];
    assert item.Valid();
    var t := item.Print() + (PrintMore(c.items[1..]) + rest);
    ItemStart(item, PrintMore(c.items[1..]) + rest);
    HeaderGrouped(c.scheme, c.items, rest);
    ChallengeStarts(c.scheme, item.lead, t);
    var s := ", " + (c.Print() + rest);
    assert s[1..] == " " + (c.Print() + rest);
    assert s[2] == c.scheme[0] && IsWordChar(c.scheme[0]);
    DropBlanksConcat(" ", c.Print() + rest);
  }

  /** The text after the first challenge of a list. */
  function AfterFirst(cs: seq<Challenge>, junk: string): string
    requires ValidChallenges(cs) && cs != []
  {
    if |cs| == 1 then junk else ", " + Join(cs[1..], junk)
  }

  lemma {:induction false} JoinFirst(cs: seq<Challenge>, junk: string)
    requires ValidChallenges(cs) && cs != []
    ensures cs[0].Valid() && Join(cs, junk) == cs[0].Print() + AfterFirst(cs, junk)
  {
    assert cs[0].Valid();
    if |cs| > 1 {
      Assoc(cs[0].Print(), ", ", Join(cs[1..], junk));
    }
  }

  /** No challenge starts among commas and blanks. */
  lemma {:induction false} NextJunk(junk: string)
    requires AllJunk(junk)
    ensures Next(junk, false) == None
  {
    if junk != "" {
      DropBlanksOfJunk(junk[1..]);
      NextJunk(junk[1..]);
    }
  }

  /** The splitter recovers the boundaries: from any challenge of a list, the next
      boundary is where the next challenge was written. */
  lemma {:induction false} SplitsWhereJoined(cs: seq<Challenge>, junk: string)
    requires ValidChallenges(cs) && cs != [] && IsEnd(junk)
    ensures Next(Join(cs, junk), false) == if |cs| == 1 then None else Some(Join(cs[1..], junk))
  {
    JoinFirst(cs, junk);
    EndEnds(junk);
    NextPast(cs[0], AfterFirst(cs, junk));
    if |cs| > 1 {
      JoinFirst(cs[1..], junk);
      NextAt(cs[1..][0], AfterFirst(cs[1..], junk));
    } else {
      NextJunk(junk);
    }
  }

  lemma {:induction false} CutTail(a: string, b: string)
    ensures (a + b)[..|a + b| - |b|] == a
  {}

  /** The first challenge of a list, cut off where the next one starts. */
  lemma {:induction false} FirstIsCut(cs: seq<Challenge>, junk: string)
    requires ValidChallenges(cs) && cs != [] && IsEnd(junk)
    ensures cs[0].Valid() && FirstOf(Join(cs, junk)) == cs[0].Print() + if |cs| == 1 then junk else ", "
  {
    SplitsWhereJoined(cs, junk);
    JoinFirst(cs, junk);
    if |cs| > 1 {
      Assoc(cs[0].Print(), ", ", Join(cs[1..], junk));
      CutTail(cs[0].Print() + ", ", Join(cs[1..], junk));
    }
  }

  /** A challenge is a digest one by its text exactly when its scheme is Digest. */
  lemma {:induction false} IsDigestByScheme(c: Challenge, rest: string)
    requires c.Valid()
    ensures IsDigest(c.Print() + rest) <==> EqualNoCase(c.scheme, "Digest")
  {
    var item := c.items[0];
    assert item.Valid();
    var tail := item.lead + (item.Print() + (PrintMore(c.items[1..]) + rest));
    ItemStart(item, PrintMore(c.items[1..]) + rest);
    HeaderGrouped(c.scheme, c.items, rest);
    SchemeIsDigest(c.scheme, tail);
  }

  lemma {:induction false} SchemeIsDigest(scheme: string, tail: string)
    requires IsWord(scheme) && |tail| > 1 && IsBlank(tail[0])
    ensures IsDigest(scheme + tail) <==> EqualNoCase(scheme, "Digest")
  {
    var s := scheme + tail;
    if |scheme| == 6 {
      assert s[..6] == scheme && s[6] == tail[0];
    } else if |scheme| > 6 {
      assert IsWordChar(s[6]);
    } else if |s| > 6 {
      var k := |scheme|;
      assert s[..6][k] == tail[0];
      assert Lower(s[..6][k]) != Lower("Digest"[k]);
    }
  }

  /** What a challenge of a list is answered by, with what may come after it. */
  lemma {:induction false} AnswerableByItems(ssl: Ssl, c: Challenge, junk: string)
    requires c.Valid() && IsEnd(junk)
    ensures Answerable(ssl, c.Print() + junk)
       <==> CanAnswer(ssl, Lookup(c.items, "algorithm"), Lookup(c.items, "qop"))
  {
    NamesAreWords();
    EndEnds(junk);
    ScanJunk("algorithm", false, junk);
    ScanJunk("qop", false, junk);
    LookupRoundTrip("algorithm", c.scheme, c.items, junk);
    LookupRoundTrip("qop", c.scheme, c.items, junk);
  }

  /** Where the first challenge of a list is that can be answered, or the end of the list. */
  function FirstGood(ssl: Ssl, cs: seq<Challenge>): (k: nat)
    ensures k <= |cs| && (k < |cs| ==> cs[k].Good(ssl))
    ensures forall i :: 0 <= i < k ==> !cs[i].Good(ssl)
  {
    if cs == [] || cs[0].Good(ssl) then 0 else 1 + FirstGood(ssl, cs[1..])
  }

  /** The first challenge of a list is taken by its text exactly when it is by its
      parameters. */
  lemma {:induction false} FirstTaken(ssl: Ssl, cs: seq<Challenge>, junk: string)
    requires ValidChallenges(cs) && cs != [] && IsEnd(junk)
    ensures IsDigest(Join(cs, junk)) && Answerable(ssl, FirstOf(Join(cs, junk))) <==> cs[0].Good(ssl)
  {
    FirstIsCut(cs, junk);
    JoinFirst(cs, junk);
    IsDigestByScheme(cs[0], AfterFirst(cs, junk));
    AnswerableByItems(ssl, cs[0], if |cs| == 1 then junk else ", ");
  }

  lemma {:induction false} FirstTrimmed(cs: seq<Challenge>, junk: string)
    requires ValidChallenges(cs) && cs != [] && IsEnd(junk)
    ensures cs[0].Valid() && Trim(FirstOf(Join(cs, junk))) == cs[0].Print()
  {
    FirstIsCut(cs, junk);
    PrintEnd(cs[0]);
    TrimConcat(cs[0].Print(), if |cs| == 1 then junk else ", ");
  }

  lemma {:induction false} ChosenStep(ssl: Ssl, cs: seq<Challenge>, junk: string)
    requires ValidChallenges(cs) && cs != [] && IsEnd(junk)
    ensures Chosen(ssl, Join(cs, junk)) ==
            if cs[0].Good(ssl) then Some(FirstOf(Join(cs, junk)))
            else if |cs| == 1 then None else Chosen(ssl, Join(cs[1..], junk))
  {
    FirstTaken(ssl, cs, junk);
    SplitsWhereJoined(cs, junk);
  }

  lemma {:induction false} ChosenIsFirstGood(ssl: Ssl, cs: seq<Challenge>, junk: string)
    requires ValidChallenges(cs) && cs != [] && IsEnd(junk)
    ensures var k, chosen := FirstGood(ssl, cs), Chosen(ssl, Join(cs, junk));
            if k == |cs| then chosen.None?
            else chosen.Some? && Trim(chosen.value) == cs[k].Print()
  {
    ChosenStep(ssl, cs, junk);
    if cs[0].Good(ssl) {
      FirstTrimmed(cs, junk);
    } else if |cs| > 1 {
      ChosenIsFirstGood(ssl, cs[1..], junk);
    }
  }

  /** A challenge ends with a word or a quote. */
  lemma {:induction false} PrintEnd(c: Challenge)
    requires c.Valid()
    ensures var t := c.Print(); t != "" && !IsJunk(t[|t| - 1])
  {
    assert c.items[0].Valid();
    ItemEnd(c.items[0]);
    MoreEnd(c.items[1..]);
  }

  lemma {:induction false} MoreEnd(items: seq<Item>)
    requires ValidItems(items)
    ensures var t := PrintMore(items); t == "" || !IsJunk(t[|t| - 1])
  {
    if items != [] {
      assert items[0].Valid();
      ItemEnd(items[0]);
      MoreEnd(items[1..]);
    }
  }

  lemma {:induction false} ItemEnd(item: Item)
    requires item.Valid()
    ensures var t := item.Print(); t != "" && !IsJunk(t[|t| - 1])
  {
    match item
    case Word(_, w) => assert IsWordChar(w[|w| - 1]);
    case Param(_, _, _, _, value) =>
      if value.Bare? { assert IsWordChar(value.text[|value.text| - 1]); }
  }

  lemma {:induction false} TrimConcat(t: string, junk: string)
    requires t != "" && !IsJunk(t[|t| - 1]) && AllJunk(junk)
    ensures Trim(t + junk) == t
  {
    if junk == "" {
      assert t + junk == t;
    } else {
      var n := |junk| - 1;
      assert (t + junk)[..|t| + n] == t + junk[..n];
      TrimConcat(t, junk[..n]);
    }
  }

  lemma {:induction false} DropSpacesConcat(spaces: string, s: string)
    requires forall i :: 0 <= i < |spaces| ==> spaces[i] == ' ' || spaces[i] == '\t'
    requires s == "" || (s[0] != ' ' && s[0] != '\t')
    ensures DropSpaces(spaces + s) == s
  {
    if spaces == "" {
      assert spaces + s == s;
    } else {
      assert (spaces + s)[1..] == spaces[1..] + s;
      DropSpacesConcat(spaces[1..], s);
    }
  }

  // Any text: a challenge that is selected can be answered as far as its algorithm and
  // its quality of protection go, but for one kind of unterminated text.

  /** How the value of a parameter in a text compares with that in the text trimmed of
      `junk`: the same up to the junk, or nothing but junk. */
  predicate SameUpTo(found: Option<string>, trimmed: Option<string>, junk: string) {
    match (found, trimmed)
    case (None, None) => true
    case (Some(r), Some(t)) => r == t + junk || (t == "" && AllJunk(r) && (r == "" || r[0] == ','))
    case _ => false
  }

  lemma {:induction false} DropBlanksOnJunk(t: string, junk: string)
    requires AllJunk(junk)
    ensures var r, d := DropBlanks(t + junk), DropBlanks(t);
      r == d + junk || (d == "" && AllJunk(r) && (r == "" || r[0] == ','))
  {
    if t == "" {
      assert t + junk == junk;
      DropBlanksOfJunk(junk);
    } else if IsBlank(t[0]) {
      assert (t + junk)[1..] == t[1..] + junk;
      DropBlanksOnJunk(t[1..], junk);
    }
  }

  lemma {:induction false} DropBlanksOfJunk(junk: string)
    requires AllJunk(junk)
    ensures var r := DropBlanks(junk); AllJunk(r) && (r == "" || r[0] == ',')
  {
    if junk != "" && IsBlank(junk[0]) {
      DropBlanksOfJunk(junk[1..]);
    } else if junk != "" {
      assert IsJunk(junk[0]);
    }
  }

  /** Junk after a text makes no name in it, and hides none. */
  lemma {:induction false} NamedOnJunk(name: string, t: string, junk: string)
    requires IsWord(name) && AllJunk(junk)
    ensures NamedHere(name, t + junk) <==> NamedHere(name, t)
    ensures NamedHere(name, t) ==>
              SameUpTo(Some(ValueOf(name, t + junk)), Some(ValueOf(name, t)), junk)
  {
    var s, n := t + junk, |name|;
    if n <= |t| {
      assert s[..n] == t[..n] && s[n..] == t[n..] + junk;
      DropBlanksOnJunk(t[n..], junk);
      var u := DropBlanks(t[n..]);
      if u != "" {
        assert DropBlanks(s[n..])[1..] == u[1..] + junk;
        DropBlanksOnJunk(u[1..], junk);
      }
    } else if n <= |s| {
      assert IsWordChar(name[|t|]) && IsJunk(junk[0]);
      assert Lower(s[..n][|t|]) != Lower(name[|t|]);
    }
  }

  lemma {:induction false} ScanQuotedJunk(name: string, opens: bool, junk: string)
    requires AllJunk(junk)
    ensures Scan(name, opens, junk, true) == None
    decreases |junk|
  {
    if junk != "" {
      assert IsJunk(junk[0]);
      ScanQuotedJunk(name, OpensName(junk[0]), junk[1..]);
    }
  }

  lemma {:induction false} ScanOnJunk(name: string, opens: bool, t: string, quoted: bool, junk: string)
    requires IsWord(name) && AllJunk(junk)
    ensures SameUpTo(Scan(name, opens, t + junk, quoted), Scan(name, opens, t, quoted), junk)
    decreases |t|
  {
    var s := t + junk;
    if t == "" {
      assert s == junk;
      if quoted { ScanQuotedJunk(name, opens, junk); } else { ScanJunk(name, opens, junk); }
    } else if quoted && t[0] == '\\' {
      if |t| > 1 {
        assert s[2..] == t[2..] + junk && s[1] == t[1];
        ScanOnJunk(name, OpensName(t[1]), t[2..], true, junk);
      } else if junk != "" {
        assert s[2..] == junk[1..] && s[1] == junk[0];
        assert Scan(name, opens, t, true) == Scan(name, OpensName(t[0]), t[1..], true) == None;
        ScanQuotedJunk(name, OpensName(junk[0]), junk[1..]);
      } else {
        assert s == t;
      }
    } else {
      assert s[1..] == t[1..] + junk;
      NamedOnJunk(name, t, junk);
      ScanOnJunk(name, if t[0] == '"' then false else OpensName(t[0]), t[1..],
                 if t[0] == '"' then !quoted else quoted, junk);
    }
  }

  /** A value that is a word, or empty, reads the same from the trimmed text. */
  lemma {:induction false} WordOnJunk(r: string, t: string, junk: string)
    requires AllJunk(junk) && SameUpTo(Some(r), Some(t), junk) && WordChars(ReadValue(r))
    ensures ReadValue(t) == ReadValue(r)
  {
    if r != t + junk {
      assert r == "" || EndsValue(r[0]);
    } else if t != "" && t[0] == '"' {
      assert r[1..] == t[1..] + junk;
      QuotedOnJunk(t[1..], junk);
    } else if t == "" {
      assert r == junk;
      if junk != "" { assert IsJunk(junk[0]); UnquotedOnJunk(t, junk); }
    } else {
      UnquotedOnJunk(t, junk);
    }
  }

  lemma {:induction false} QuotedOnJunk(t: string, junk: string)
    requires AllJunk(junk)
    ensures '"' in t ==> UpTo(t + junk, '"') == UpTo(t, '"')
    ensures '"' !in t ==> UpTo(t + junk, '"') == t + junk && UpTo(t, '"') == t
    ensures WordChars(UpTo(t + junk, '"')) ==> UpTo(t + junk, '"') == UpTo(t, '"')
  {
    if t == "" {
      assert t + junk == junk;
      forall i | 0 <= i < |junk| ensures junk[i] != '"' { assert IsJunk(junk[i]); }
      UpToNone(junk, '"');
      if junk != "" { assert IsJunk(junk[0]) && UpTo(junk, '"')[0] == junk[0]; }
    } else if t[0] != '"' {
      assert (t + junk)[1..] == t[1..] + junk;
      QuotedOnJunk(t[1..], junk);
      var u := UpTo(t + junk, '"');
      assert u[1..] == UpTo(t[1..] + junk, '"');
      if WordChars(u) {
        assert forall i :: 0 <= i < |u| - 1 ==> u[1..][i] == u[i + 1];
      }
    }
  }

  lemma {:induction false} UnquotedOnJunk(t: string, junk: string)
    requires AllJunk(junk)
    ensures WordChars(UnquotedValue(t + junk)) ==> UnquotedValue(t + junk) == UnquotedValue(t)
  {
    if t == "" {
      assert t + junk == junk;
      if junk != "" {
        assert IsJunk(junk[0]);
        if !EndsValue(junk[0]) { assert UnquotedValue(junk)[0] == junk[0]; }
      }
    } else if !EndsValue(t[0]) {
      assert (t + junk)[1..] == t[1..] + junk;
      UnquotedOnJunk(t[1..], junk);
      var u := UnquotedValue(t + junk);
      assert u[1..] == UnquotedValue(t[1..] + junk);
      if WordChars(u) {
        assert forall i :: 0 <= i < |u| - 1 ==> u[1..][i] == u[i + 1];
      }
    }
  }

  /** What a challenge's algorithm must be for it to be selected. */
  lemma {:induction false} KnownIsWord(ssl: Ssl, algo: string, qop: string)
    requires CanAnswer(ssl, algo, qop)
    ensures WordChars(algo)
  {
    if EqualNoCase(algo, "AKAv1-MD5") {
      forall i | 0 <= i < |algo| ensures IsWordChar(algo[i]) {
        var l := Lower(algo[i]);
        assert 'a' <= l <= 'z' || '0' <= l <= '9' || l == '-';
      }
    } else if algo != "" {
      AlgorithmIsPlain(algo);
    }
  }

  /** A qop parameter that opens a quoted string with nothing but commas and blanks
      to the end of the challenge. */
  predicate DanglingQop(challenge: string) {
    match Scan("qop", true, challenge, false)
    case None => false
    case Some(r) => r != "" && r[0] == '"' && AllJunk(r[1..])
  }

  lemma {:induction false} TrimAlgorithm(ssl: Ssl, challenge: string)
    requires Answerable(ssl, challenge)
    ensures GetAuthParameter("algorithm", Trim(challenge)) == GetAuthParameter("algorithm", challenge)
  {
    var t := Trim(challenge);
    var junk := challenge[|t|..];
    assert challenge == t + junk;
    NamesAreWords();
    KnownIsWord(ssl, GetAuthParameter("algorithm", challenge), GetAuthParameter("qop", challenge));
    ScanOnJunk("algorithm", true, t, false, junk);
    var found := Scan("algorithm", true, challenge, false);
    if found.Some? {
      WordOnJunk(found.value, Scan("algorithm", true, t, false).value, junk);
    }
  }

  /** A quality of protection is lost by trimming exactly when it dangles. */
  lemma {:induction false} TrimQop(challenge: string)
    requires GetAuthParameter("qop", challenge) != ""
    ensures GetAuthParameter("qop", Trim(challenge)) == "" <==> DanglingQop(challenge)
  {
    var t := Trim(challenge);
    var junk := challenge[|t|..];
    assert challenge == t + junk;
    NamesAreWords();
    ScanOnJunk("qop", true, t, false, junk);
    ScanIsSuffix("qop", true, t, false);
    ScanNotBlank("qop", true, challenge, false);
    var u := Scan("qop", true, t, false).value;
    assert u != "" ==> u[|u| - 1] == t[|t| - 1];
    EmptyOnJunk(Scan("qop", true, challenge, false).value, u, junk);
  }

  /** A value that is not empty, and is once the junk is gone, was a quote and junk. */
  lemma {:induction false} EmptyOnJunk(r: string, u: string, junk: string)
    requires AllJunk(junk) && SameUpTo(Some(r), Some(u), junk) && ReadValue(r) != ""
    requires r == "" || !IsBlank(r[0])
    requires u == "" || !IsJunk(u[|u| - 1])
    ensures ReadValue(u) == "" <==> r != "" && r[0] == '"' && AllJunk(r[1..])
  {
    if u == "" {
      assert r == "" || r[0] == ',' by { if r != "" && r == u + junk { assert r == junk && IsJunk(r[0]); } }
    } else if u[0] == '"' {
      assert r[1..] == u[1..] + junk;
      if |u| > 1 {
        assert r[1..][|u| - 2] == u[|u| - 1];
      }
    }
  }

  predicate EndsWith(s: string, r: string) {
    |r| <= |s| && r == s[|s| - |r|..]
  }

  lemma {:induction false} EndsFrom(s: string, k: nat, r: string)
    requires k <= |s| && EndsWith(s[k..], r)
    ensures EndsWith(s, r)
  {
  }

  /** A value starts at the end of the text, and not at a blank. */
  lemma {:induction false} ScanIsSuffix(name: string, opens: bool, s: string, quoted: bool)
    ensures var r := Scan(name, opens, s, quoted); r.Some? ==> EndsWith(s, r.value)
    decreases |s|
  {
    var r := Scan(name, opens, s, quoted);
    if r.Some? {
      if quoted && s[0] == '\\' && |s| > 1 {
        ScanIsSuffix(name, OpensName(s[1]), s[2..], true);
        EndsFrom(s, 2, r.value);
      } else if s[0] == '"' {
        ScanIsSuffix(name, false, s[1..], !quoted);
        EndsFrom(s, 1, r.value);
      } else if !quoted && opens && NamedHere(name, s) {
        ValueIsSuffix(name, s);
      } else {
        ScanIsSuffix(name, OpensName(s[0]), s[1..], quoted);
        EndsFrom(s, 1, r.value);
      }
    }
  }

  lemma {:induction false} ValueIsSuffix(name: string, s: string)
    requires NamedHere(name, s)
    ensures EndsWith(s, ValueOf(name, s))
  {
    var t := s[|name|..];
    var u := DropBlanks(t);
    DropIsSuffix(t);
    DropIsSuffix(u[1..]);
    EndsFrom(u, 1, ValueOf(name, s));
    EndsFrom(t, |t| - |u|, ValueOf(name, s));
    EndsFrom(s, |name|, ValueOf(name, s));
  }

  lemma {:induction false} DropIsSuffix(s: string)
    ensures EndsWith(s, DropBlanks(s))
  {
    if s != "" && IsBlank(s[0]) {
      DropIsSuffix(s[1..]);
      EndsFrom(s, 1, DropBlanks(s));
    }
  }

  lemma {:induction false} ScanNotBlank(name: string, opens: bool, s: string, quoted: bool)
    ensures var r := Scan(name, opens, s, quoted); r.Some? && r.value != "" ==> !IsBlank(r.value[0])
    decreases |s|
  {
    if s != "" {
      if quoted && s[0] == '\\' && |s| > 1 {
        ScanNotBlank(name, OpensName(s[1]), s[2..], true);
      } else if s[0] == '"' {
        ScanNotBlank(name, false, s[1..], !quoted);
      } else if !(!quoted && opens && NamedHere(name, s)) {
        ScanNotBlank(name, OpensName(s[0]), s[1..], quoted);
      }
    }
  }

  /** A chosen challenge is a digest one that can be answered. */
  lemma {:induction false} ChosenIsAnswerable(ssl: Ssl, s: string)
    requires Chosen(ssl, s).Some?
    ensures var c := Chosen(ssl, s).value;
      Answerable(ssl, c) && |c| >= 6 && EqualNoCase(c[..6], "Digest")
    decreases |s|
  {
    if IsDigest(s) && Answerable(ssl, FirstOf(s)) {
      DigestIsKept(s);
    } else {
      ChosenIsAnswerable(ssl, Next(s, false).value);
    }
  }

  lemma {:induction false} DigestIsKept(s: string)
    requires IsDigest(s)
    ensures var c := FirstOf(s); |c| >= 6 && c[..6] == s[..6]
  {
    var d := s[..6];
    forall i | 0 <= i < 6 ensures d[i] != ',' && d[i] != '"' {
      assert Lower(d[i]) == Lower("Digest"[i]);
    }
    assert s == d + s[6..];
    NextPlain(d, s[6..]);
  }

  lemma {:induction false} TrimKeepsDigest(c: string)
    requires |c| >= 6 && EqualNoCase(c[..6], "Digest")
    ensures ContainsNoCase(Trim(c), "Digest")
  {
    var t := Trim(c);
    assert Lower(c[..6][5]) == Lower("Digest"[5]);
    TrimCovers(c, 5);
    assert t[0..][..6] == c[..6];
  }

  lemma {:induction false} TrimCovers(c: string, i: nat)
    requires i < |c| && !IsJunk(c[i])
    ensures i < |Trim(c)|
  {
    if IsJunk(c[|c| - 1]) {
      TrimCovers(c[..|c| - 1], i);
    }
  }

  predicate IsSess(challenge: string) {
    var a := DigestAlgorithm(AlgorithmName(challenge)); a.Some? && a.value.sess
  }

  /** A known algorithm that the library has. */
  predicate Known(ssl: Ssl, algo: string) {
    algo == "" || EqualNoCase(algo, "AKAv1-MD5") ||
    (DigestAlgorithm(algo).Some? && ssl.Has(DigestAlgorithm(algo).value.hash))
  }

  lemma {:induction false} KnownFails(ssl: Ssl, user: User, challenge: string, akaKey: bool)
    requires user.Valid() && user.method_.Some? && ContainsNoCase(challenge, "Digest")
    requires Known(ssl, GetAuthParameter("algorithm", challenge))
    ensures var answer := CreateAuthHeader(ssl, user, challenge, akaKey);
      answer != Failed(NotDigest) && answer != Failed(UnknownAlgorithm) && answer != Failed(UnsupportedAlgorithm) &&
      (answer == Failed(NeedsQop) <==> IsSess(challenge) && GetAuthParameter("qop", challenge) == "")
  {
    var algo := AlgorithmName(challenge);
    assert EqualNoCase("MD5", "MD5");
    if EqualNoCase(algo, "AKAv1-MD5") {
      AkaIsNoDigest(algo);
    } else {
      DigestNeedsQop(ssl, DigestAlgorithm(algo).value, user, challenge, algo);
    }
  }

  lemma {:induction false} AkaIsNoDigest(algo: string)
    requires EqualNoCase(algo, "AKAv1-MD5")
    ensures DigestAlgorithm(algo) == None
  {}

  lemma {:induction false} DigestNeedsQop(ssl: Ssl, a: Algorithm, user: User, challenge: string, algo: string)
    requires user.Valid() && user.method_.Some?
    ensures var answer := DigestHeader(ssl, a, user, challenge, algo);
      answer != Failed(NotDigest) && answer != Failed(UnknownAlgorithm) && answer != Failed(UnsupportedAlgorithm) &&
      (answer == Failed(NeedsQop) <==> a.sess && GetAuthParameter("qop", challenge) == "")
  {}

  /** An answer that fails for the algorithm of the challenge, or for want of a qop with it. */
  predicate Refuses(answer: Answer) {
    answer == Failed(UnknownAlgorithm) || answer == Failed(UnsupportedAlgorithm) || answer == Failed(NeedsQop)
  }

  /** A challenge is answerable exactly when `createAuthHeader` does not so refuse it. */
  lemma {:induction false} AnswerableIffAnswered(ssl: Ssl, user: User, challenge: string, akaKey: bool)
    requires user.Valid() && user.method_.Some? && ContainsNoCase(challenge, "Digest")
    ensures Answerable(ssl, challenge) <==> !Refuses(CreateAuthHeader(ssl, user, challenge, akaKey))
  {
    var algo := GetAuthParameter("algorithm", challenge);
    if Known(ssl, algo) {
      KnownFails(ssl, user, challenge, akaKey);
      Md5IsPlain();
      if EqualNoCase(algo, "AKAv1-MD5") { AkaIsNoDigest(algo); }
    }
  }

  lemma {:induction false} Md5IsPlain()
    ensures DigestAlgorithm("MD5") == Some(Algorithm(Md5, false)) && !EqualNoCase("MD5", "AKAv1-MD5")
  {
    assert EqualNoCase("MD5", "MD5");
  }

  /** Whether a challenge is a digest one that `createAuthHeader` answers, or fails for another
      reason than its algorithm. */
  predicate Answered(ssl: Ssl, user: User, c: Challenge, akaKey: bool)
    requires user.Valid() && c.Valid()
  {
    EqualNoCase(c.scheme, "Digest") && !Refuses(CreateAuthHeader(ssl, user, c.Print(), akaKey))
  }

  lemma {:induction false} GoodIffAnswered(ssl: Ssl, user: User, c: Challenge, akaKey: bool)
    requires user.Valid() && user.method_.Some? && c.Valid()
    ensures c.Good(ssl) <==> Answered(ssl, user, c, akaKey)
  {
    if EqualNoCase(c.scheme, "Digest") {
      AnswerableByItems(ssl, c, "");
      assert c.Print() + "" == c.Print();
      HeaderGrouped(c.scheme, c.items, "");
      assert c.Print()[0..][..6] == c.scheme;
      AnswerableIffAnswered(ssl, user, c.Print(), akaKey);
    }
  }

  /** The first challenge of a list that is so answered, or the end of the list. */
  predicate IsFirstAnswered(ssl: Ssl, user: User, cs: seq<Challenge>, akaKey: bool, k: nat)
    requires user.Valid() && ValidChallenges(cs)
  {
    k <= |cs| && (k < |cs| ==> Answered(ssl, user, cs[k], akaKey)) &&
    forall i :: 0 <= i < k ==> !Answered(ssl, user, cs[i], akaKey)
  }

  /** There is always such a place. */
  lemma {:induction false} FirstAnswered(ssl: Ssl, user: User, cs: seq<Challenge>, akaKey: bool) returns (k: nat)
    requires user.Valid() && ValidChallenges(cs)
    ensures IsFirstAnswered(ssl, user, cs, akaKey, k)
  {
    k := 0;
    while k < |cs| && !Answered(ssl, user, cs[k], akaKey)
      invariant k <= |cs| && forall i :: 0 <= i < k ==> !Answered(ssl, user, cs[i], akaKey)
    {
      k := k + 1;
    }
  }

  /** The selection: of any list of challenges, between spaces and such an end, the first digest
      one that `createAuthHeader` does not refuse for its algorithm, or all of the text without
      one. */
  lemma {:induction false} SelectsFirstAnswered(ssl: Ssl, user: User, spaces: string, cs: seq<Challenge>, junk: string,
                                                akaKey: bool, k: nat)
    requires ValidChallenges(cs) && cs != [] && IsEnd(junk) && user.Valid() && user.method_.Some?
    requires forall i :: 0 <= i < |spaces| ==> spaces[i] == ' ' || spaces[i] == '\t'
    requires IsFirstAnswered(ssl, user, cs, akaKey, k)
    ensures SelectAuthChallenge(ssl, spaces + Join(cs, junk))
         == if k == |cs| then spaces + Join(cs, junk) else cs[k].Print()
  {
    forall i | 0 <= i < |cs| ensures cs[i].Good(ssl) <==> Answered(ssl, user, cs[i], akaKey) {
      GoodIffAnswered(ssl, user, cs[i], akaKey);
    }
    assert FirstGood(ssl, cs) == k;
    SelectsFirstGood(ssl, spaces, cs, junk);
  }

  lemma {:induction false} SelectsFirstGood(ssl: Ssl, spaces: string, cs: seq<Challenge>, junk: string)
    requires ValidChallenges(cs) && cs != [] && IsEnd(junk)
    requires forall i :: 0 <= i < |spaces| ==> spaces[i] == ' ' || spaces[i] == '\t'
    ensures var k := FirstGood(ssl, cs);
            SelectAuthChallenge(ssl, spaces + Join(cs, junk))
            == if k == |cs| then spaces + Join(cs, junk) else cs[k].Print()
  {
    ChosenIsFirstGood(ssl, cs, junk);
    JoinFirst(cs, junk);
    HeaderGrouped(cs[0].scheme, cs[0].items, AfterFirst(cs, junk));
    assert IsWordChar(cs[0].scheme[0]);
    DropSpacesConcat(spaces, Join(cs, junk));
  }

  /** Whatever the text, a selected challenge is answered as far as its algorithm goes,
      and refused for want of a quality of protection exactly when its algorithm is a
      -sess one and its qop is an opening quote with only commas and blanks after it. */
  lemma {:induction false} SelectedIsAnswered(ssl: Ssl, auth: string, user: User, akaKey: bool)
    requires user.Valid() && user.method_.Some?
    requires Chosen(ssl, DropSpaces(auth)).Some?
    ensures var challenge := Chosen(ssl, DropSpaces(auth)).value;
            var answer := CreateAuthHeader(ssl, user, SelectAuthChallenge(ssl, auth), akaKey);
      answer != Failed(NotDigest) && answer != Failed(UnknownAlgorithm) && answer != Failed(UnsupportedAlgorithm) &&
      (answer == Failed(NeedsQop) <==> IsSess(challenge) && DanglingQop(challenge))
  {
    var challenge := Chosen(ssl, DropSpaces(auth)).value;
    ChosenIsAnswerable(ssl, DropSpaces(auth));
    TrimAlgorithm(ssl, challenge);
    TrimKeepsDigest(challenge);
    KnownFails(ssl, user, Trim(challenge), akaKey);
    if IsSess(challenge) {
      SessHasQop(ssl, challenge);
      TrimQop(challenge);
    }
  }

  lemma {:induction false} SessHasQop(ssl: Ssl, challenge: string)
    requires Answerable(ssl, challenge) && IsSess(challenge)
    ensures GetAuthParameter("qop", challenge) != ""
  {
    assert EqualNoCase("MD5", "MD5");
  }

  // A challenge of that kind is selected, and refused.

  const SESS: Item := Param(" ", "algorithm", "", "", Bare("MD5-sess"))
  const DANGLING_TAIL := "," + ("qop" + ("=" + ("\"" + ", ")))

  /** The text: Digest algorithm=MD5-sess,qop=", */
  function Dangling(): string {
    PrintHeader("Digest", [SESS]) + DANGLING_TAIL
  }

  lemma {:induction false} DanglingText()
    ensures SESS.Valid() && ValidHeader("Digest", [SESS])
    ensures Dangling() == "Digest" + (" " + (SESS.Print() + DANGLING_TAIL))
    ensures ("qop" + ("=" + ("\"" + ", ")))[0] == 'q'
  {
    NamesAreWords();
    assert IsWord("MD5-sess");
    assert PrintMore([SESS][1..]) == "";
    assert PrintHeader("Digest", [SESS]) == "Digest" + (" " + SESS.Print());
  }

  lemma {:induction false} DanglingAlgorithm()
    ensures GetAuthParameter("algorithm", Dangling()) == "MD5-sess"
  {
    var name, v := "algorithm", "\"" + ", ";
    DanglingText();
    NamesAreWords();
    NotNamedAt(name, DANGLING_TAIL);
    assert DANGLING_TAIL[1..] == "qop" + ("=" + v);
    NamedAtWord(name, "qop", "=" + v);
    ScanWord(name, "qop", "=" + v);
    NotNamedAt(name, "=" + v);
    assert ("=" + v)[1..] == v && v[1..] == ", ";
    ScanQuotedJunk(name, false, ", ");
    LookupRoundTrip(name, "Digest", [SESS], DANGLING_TAIL);
    assert SESS.Names(name);
  }

  lemma {:induction false} DanglingToTail()
    ensures Scan("qop", true, Dangling(), false) == Scan("qop", false, DANGLING_TAIL, false)
  {
    var name, rest := "qop", SESS.Print() + DANGLING_TAIL;
    DanglingText();
    NamesAreWords();
    ItemStart(SESS, DANGLING_TAIL);
    DropBlanksConcat(" ", rest);
    NamedAtWord(name, "Digest", " " + rest);
    ScanWord(name, "Digest", " " + rest);
    ScanBlanks(name, false, " ", rest);
    ScanOther(name, SESS, DANGLING_TAIL);
  }

  lemma {:induction false} DanglingValue()
    ensures DanglingQop(Dangling()) && GetAuthParameter("qop", Dangling()) != ""
  {
    DanglingToTail();
    DanglingTail("\"" + ", ");
    assert UpTo(", ", '"') != "";
  }

  lemma {:induction false} DanglingTail(v: string)
    requires v == "\"" + ", "
    ensures Scan("qop", false, DANGLING_TAIL, false) == Some(v) && v[1..] == ", "
  {
    NamesAreWords();
    NotNamedAt("qop", DANGLING_TAIL);
    assert DANGLING_TAIL[1..] == "qop" + ("" + ("=" + ("" + v)));
    ScanNamedText("qop", "qop", "", "=" + ("" + v), "", v);
  }

  lemma {:induction false} DanglingNext()
    ensures Next(Dangling(), false) == None
  {
    var v := "\"" + ", ";
    var rest := SESS.Print() + DANGLING_TAIL;
    DanglingText();
    NextPlain("Digest", " " + rest);
    NextPlain(" ", rest);
    NextItem(SESS, DANGLING_TAIL);
    var t := "qop" + ("=" + v);
    assert DANGLING_TAIL[1..] == t;
    DanglingIsNoChallenge(v);
    NamesAreWords();
    NextPlain("qop", "=" + v);
    NextPlain("=", v);
    assert v[1..] == ", ";
    NextInJunk(", ");
  }

  lemma {:induction false} DanglingIsNoChallenge(v: string)
    ensures var t := "qop" + ("=" + v); DropBlanks(t) == t && !StartsChallenge(t)
  {
    var t := "qop" + ("=" + v);
    NamesAreWords();
    SchemeOfWord("qop", "=" + v);
    assert t[0] == 'q' && t[3..] == "=" + v;
  }

  lemma {:induction false} NextInJunk(junk: string)
    requires AllJunk(junk)
    ensures Next(junk, true) == None
  {
    if junk != "" {
      assert IsJunk(junk[0]);
      NextInJunk(junk[1..]);
    }
  }

  lemma {:induction false} DanglingIsChosen(ssl: Ssl)
    ensures Chosen(ssl, DropSpaces(Dangling())) == Some(Dangling())
    ensures IsSess(Dangling())
  {
    DanglingText();
    DanglingAlgorithm();
    DanglingValue();
    DanglingNext();
    ItemStart(SESS, DANGLING_TAIL);
    SchemeIsDigest("Digest", " " + (SESS.Print() + DANGLING_TAIL));
    assert EqualNoCase("Digest", "Digest");
    SessIsKnown();
  }

  lemma {:induction false} SessIsKnown()
    ensures DigestAlgorithm("MD5-sess") == Some(Algorithm(Md5, true))
  {}

  lemma {:induction false} DanglingQopIsRefused(ssl: Ssl, user: User, akaKey: bool)
    requires user.Valid() && user.method_.Some?
    ensures CreateAuthHeader(ssl, user, SelectAuthChallenge(ssl, Dangling()), akaKey) == Failed(NeedsQop)
  {
    DanglingIsChosen(ssl);
    DanglingValue();
    SelectedIsAnswered(ssl, Dangling(), user, akaKey);
  }

  // The loops.

  /** `cspan(s, at, " \t\r\n=,")`. */
  method SpanScheme(s: string, at: nat) returns (i: nat)
    requires at <= |s|
    ensures at <= i <= |s| && i - at == |Scheme(s[at..])|
  {
    i := at;
    while i < |s| && !IsBlank(s[i]) && s[i] != '=' && s[i] != ','
      invariant at <= i <= |s|
      invariant |Scheme(s[at..])| == i - at + |Scheme(s[i..])|
    {
      assert s[i..][1..] == s[i + 1..];
      i := i + 1;
    }
  }

  /** Whether a challenge starts past the comma at `p`, and where. */
  method ChallengeAfter(auth: string, p: nat) returns (at: Option<nat>)
    requires p < |auth|
    ensures at.Some? <==> StartsChallenge(DropBlanks(auth[p + 1..]))
    ensures at.Some? ==> at.value <= |auth| && auth[at.value..] == DropBlanks(auth[p + 1..])
  {
    var start := SpanBlanks(auth, p + 1);
    var end := SpanScheme(auth, start);
    var after := SpanBlanks(auth, end);
    ghost var t := auth[start..];
    assert t[end - start..] == auth[end..];
    if end > start && after > end && after < |auth| && auth[after] != '=' && auth[after] != ',' {
      return Some(start);
    }
    return None;
  }

  lemma {:induction false} NextOneMore(auth: string, p: nat, quoted: bool)
    requires p < |auth|
    ensures Next(auth[p..], quoted) ==
            if quoted && auth[p] == '\\' && p + 1 < |auth| then Next(auth[p + 2..], true)
            else if auth[p] == '"' then Next(auth[p + 1..], !quoted)
            else if auth[p] == ',' && !quoted && StartsChallenge(DropBlanks(auth[p + 1..])) then
              Some(DropBlanks(auth[p + 1..]))
            else Next(auth[p + 1..], quoted)
  {
    assert auth[p..][1..] == auth[p + 1..];
    if p + 1 < |auth| {
      assert auth[p..][2..] == auth[p + 2..];
    }
  }

  /** `nextChallenge`, the loop over an index and a quote flag. */
  method NextChallenge(auth: string, from: nat) returns (next: Option<nat>)
    requires from <= |auth|
    ensures next.None? ==> Next(auth[from..], false) == None
    ensures next.Some? ==> next.value <= |auth| && Next(auth[from..], false) == Some(auth[next.value..])
  {
    var quoted, p := false, from;
    while p < |auth|
      invariant from <= p <= |auth|
      invariant Next(auth[from..], false) == Next(auth[p..], quoted)
    {
      NextOneMore(auth, p, quoted);
      if quoted && auth[p] == '\\' && p + 1 < |auth| {
        p := p + 2;
        continue;
      }
      if auth[p] == '"' {
        quoted := !quoted;
      } else if auth[p] == ',' && !quoted {
        next := ChallengeAfter(auth, p);
        if next.Some? {
          return;
        }
      }
      p := p + 1;
    }
    return None;
  }

  /** `span(auth, 0, " \t")`. */
  method SpanSpaces(auth: string) returns (start: nat)
    ensures start <= |auth| && DropSpaces(auth) == auth[start..]
  {
    start := 0;
    while start < |auth| && (auth[start] == ' ' || auth[start] == '\t')
      invariant start <= |auth| && DropSpaces(auth) == DropSpaces(auth[start..])
    {
      assert auth[start..][1..] == auth[start + 1..];
      start := start + 1;
    }
  }

  /** Whether the challenge at `start` is a digest one. */
  method DigestAt(auth: string, start: nat) returns (digest: bool)
    requires start <= |auth|
    ensures digest <==> IsDigest(auth[start..])
  {
    if |auth| - start <= 6 {
      return false;
    }
    assert auth[start..][..6] == auth[start..start + 6];
    return EqualNoCase(auth[start..start + 6], "Digest") && IsSpace(auth[start + 6]);
  }

  /** `selectAuthChallenge`, the loop over the challenges. */
  method SelectChallenge(ssl: Ssl, auth: string) returns (challenge: string)
    ensures challenge == SelectAuthChallenge(ssl, auth)
  {
    var start := SpanSpaces(auth);
    while true
      invariant start <= |auth|
      invariant Chosen(ssl, DropSpaces(auth)) == Chosen(ssl, auth[start..])
      decreases |auth| - start
    {
      var next := NextChallenge(auth, start);
      var end := if next.Some? then next.value else |auth|;
      challenge := auth[start..end];
      assert challenge == FirstOf(auth[start..]);
      var digest := DigestAt(auth, start);
      if digest && Answerable(ssl, challenge) {
        return Trim(challenge);
      }
      if next.None? {
        return auth;
      }
      start := next.value;
    }
  }
}
