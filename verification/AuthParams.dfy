/** The parameter scanner of src/auth.cpp, and the lists of parameters it reads:
    whatever list of parameters is printed, a lookup in the text finds what a
    lookup in the list finds. */
module AuthParams {
  import opened Text

  /** Whether a parameter name may start after `c`. */
  predicate OpensName(c: char) {
    c == ',' || IsSpace(c)
  }

  /** `s` starts with `name` in any case, then blanks, then '='. */
  predicate NamedHere(name: string, s: string) {
    |name| <= |s| && EqualNoCase(s[..|name|], name) &&
    var t := DropBlanks(s[|name|..]);
    t != "" && t[0] == '='
  }

  /** Where the value starts in a text that starts with `name`, blanks and '='. */
  function ValueOf(name: string, s: string): string
    requires NamedHere(name, s)
  {
    DropBlanks(DropBlanks(s[|name|..])[1..])
  }

  /** What is left of a header at the value of `name`, from a point of the scan:
      `s` is the text not scanned yet, `opens` whether a name may start there and
      `quoted` whether it is inside a quoted string. */
  function Scan(name: string, opens: bool, s: string, quoted: bool): Option<string>
    decreases |s|
  {
    if s == "" then None
    else if quoted && s[0] == '\\' && |s| > 1 then Scan(name, OpensName(s[1]), s[2..], true)
    else if s[0] == '"' then Scan(name, false, s[1..], !quoted)
    else if !quoted && opens && NamedHere(name, s) then Some(ValueOf(name, s))
    else Scan(name, OpensName(s[0]), s[1..], quoted)
  }

  /** The value that starts at `s`: up to the closing quote, or an unquoted one. */
  function ReadValue(s: string): string {
    if s != "" && s[0] == '"' then UpTo(s[1..], '"') else UnquotedValue(s)
  }

  /** `getAuthParameter`: the value of a parameter, "" if the header has none. */
  function GetAuthParameter(name: string, header: string): string {
    match Scan(name, true, header, false)
    case None => ""
    case Some(rest) => ReadValue(rest)
  }

  /** `span(s, at, " \t\r\n")`, as a loop over an index. */
  method SpanBlanks(s: string, at: nat) returns (i: nat)
    requires at <= |s|
    ensures at <= i <= |s|
    ensures s[i..] == DropBlanks(s[at..])
  {
    i := at;
    while i < |s| && IsBlank(s[i])
      invariant at <= i <= |s|
      invariant DropBlanks(s[at..]) == DropBlanks(s[i..])
    {
      assert s[i..][1..] == s[i + 1..];
      i := i + 1;
    }
  }

  /** Whether a parameter name may start at index `p` of the header. */
  predicate OpensAt(header: string, p: nat)
    requires p <= |header|
  {
    p == 0 || OpensName(header[p - 1])
  }

  /** One turn of the scan, on indices. */
  lemma {:induction false} ScanAt(name: string, header: string, p: nat, quoted: bool)
    requires p < |header|
    ensures Scan(name, OpensAt(header, p), header[p..], quoted) ==
            if quoted && header[p] == '\\' && p + 1 < |header| then
              Scan(name, OpensAt(header, p + 2), header[p + 2..], true)
            else if header[p] == '"' then
              Scan(name, OpensAt(header, p + 1), header[p + 1..], !quoted)
            else if !quoted && OpensAt(header, p) && NamedHere(name, header[p..]) then
              Some(ValueOf(name, header[p..]))
            else
              Scan(name, OpensAt(header, p + 1), header[p + 1..], quoted)
  {
    var s := header[p..];
    assert s[1..] == header[p + 1..];
    if |s| > 1 {
      assert s[1] == header[p + 1] && s[2..] == header[p + 2..];
    }
  }

  /** The test of one position: the name, blanks and '=', and then the value. */
  method ValueAt(name: string, header: string, p: nat) returns (at: Option<nat>)
    requires p <= |header|
    ensures at.None? <==> !NamedHere(name, header[p..])
    ensures at.Some? ==> at.value <= |header| && header[at.value..] == ValueOf(name, header[p..])
  {
    if |header| - p < |name| {
      return None;
    }
    assert header[p..][..|name|] == header[p..p + |name|];
    if !EqualNoCase(header[p..p + |name|], name) {
      return None;
    }
    assert header[p..][|name|..] == header[p + |name|..];
    var eq := SpanBlanks(header, p + |name|);
    if eq == |header| || header[eq] != '=' {
      return None;
    }
    assert header[eq..][1..] == header[eq + 1..];
    var i := SpanBlanks(header, eq + 1);
    return Some(i);
  }

  /** `findAuthParameter`, the loop over an index and a quote flag. */
  method FindAuthParameter(name: string, header: string) returns (start: Option<nat>)
    ensures start.None? ==> Scan(name, true, header, false) == None
    ensures start.Some? ==> start.value <= |header| &&
                            Scan(name, true, header, false) == Some(header[start.value..])
  {
    var quoted, p := false, 0;
    assert header[0..] == header;
    while p < |header|
      invariant p <= |header|
      invariant Scan(name, true, header, false) == Scan(name, OpensAt(header, p), header[p..], quoted)
    {
      ScanAt(name, header, p, quoted);
      if quoted && header[p] == '\\' && p + 1 < |header| {
        p := p + 2;
        continue;
      }
      if header[p] == '"' {
        quoted := !quoted;
      } else if !quoted && OpensAt(header, p) {
        start := ValueAt(name, header, p);
        if start.Some? {
          return;
        }
      }
      p := p + 1;
    }
    return None;
  }

  // Lists of parameters, and what they look like in a header.

  /** A word of a header: a token of section 25.1 of RFC 3261, or anything else
      without a separator that the scanner looks for. */
  predicate IsWord(w: string) {
    w != "" && WordChars(w)
  }

  predicate WordChars(w: string) {
    forall i :: 0 <= i < |w| ==> IsWordChar(w[i])
  }

  predicate IsWordChar(c: char) {
    !IsSpace(c) && c != ',' && c != '=' && c != '"'
  }

  /** The text of a quoted string that ends where its closing quote is written:
      every quote in it has a backslash before it that is not itself escaped, and
      it does not end with such a backslash. */
  predicate Closed(t: string)
    decreases |t|
  {
    if t == "" then true
    else if t[0] == '\\' then |t| > 1 && Closed(t[2..])
    else t[0] != '"' && Closed(t[1..])
  }

  datatype Value = Quoted(text: string) | Bare(text: string)
  {
    predicate Valid() {
      if Quoted? then Closed(text) else IsWord(text)
    }

    function Print(): string {
      if Quoted? then "\"" + text + "\"" else text
    }

    /** What a reader that ends a quoted value at its first quote gets. */
    function Read(): string {
      if Quoted? then UpTo(text, '"') else text
    }
  }

  /** An element of a comma-separated list: a parameter, with the blanks before it
      and around its '=', or a word alone, as the second of qop=auth,auth-int. */
  datatype Item =
    | Param(lead: string, key: string, before: string, after: string, value: Value)
    | Word(lead: string, word: string)
  {
    predicate Valid() {
      AllBlank(lead) &&
      match this
      case Param(_, key, before, after, value) =>
        IsWord(key) && AllBlank(before) && AllBlank(after) && value.Valid()
      case Word(_, word) => IsWord(word)
    }

    /** The element without the blanks before it. */
    function Print(): string {
      match this
      case Param(_, key, before, after, value) => key + before + "=" + after + value.Print()
      case Word(_, word) => word
    }

    predicate Names(name: string) {
      Param? && EqualNoCase(key, name)
    }
  }

  predicate ValidItems(items: seq<Item>) {
    forall i :: 0 <= i < |items| ==> items[i].Valid()
  }

  /** The elements of a list after its first, each with the comma before it. */
  function PrintMore(items: seq<Item>): string {
    if items == [] then "" else "," + items[0].lead + items[0].Print() + PrintMore(items[1..])
  }

  lemma {:induction false} PrintMoreGrouped(items: seq<Item>, rest: string)
    requires items != []
    ensures PrintMore(items) + rest
         == "," + (items[0].lead + (items[0].Print() + (PrintMore(items[1..]) + rest)))
  {
    var lead, text, more := items[0].lead, items[0].Print(), PrintMore(items[1..]);
    Assoc("," + lead, text, more);
    Assoc("," + lead, text + more, rest);
    Assoc(text, more, rest);
    Assoc(",", lead, text + (more + rest));
  }

  lemma {:induction false} Assoc(a: string, b: string, c: string)
    ensures a + b + c == a + (b + c)
  {}

  /** The value of the first parameter of that name in the list, "" without one. */
  function Lookup(items: seq<Item>, name: string): string {
    if items == [] then ""
    else if items[0].Names(name) then items[0].value.Read()
    else Lookup(items[1..], name)
  }

  // The scan of a printed list, piece by piece.

  /** A closed quoted text is passed over, with its closing quote. */
  lemma {:induction false} ScanQuoted(name: string, opens: bool, t: string, rest: string)
    requires Closed(t)
    ensures Scan(name, opens, t + "\"" + rest, true) == Scan(name, false, rest, false)
    decreases |t|
  {
    var s := t + "\"" + rest;
    if t == "" {
      assert s[1..] == rest;
    } else if t[0] == '\\' {
      assert s[2..] == t[2..] + "\"" + rest;
      ScanQuoted(name, OpensName(s[1]), t[2..], rest);
    } else {
      assert s[1..] == t[1..] + "\"" + rest;
      ScanQuoted(name, OpensName(s[0]), t[1..], rest);
    }
  }

  /** Inside a word no name starts. */
  lemma {:induction false} ScanInWord(name: string, w: string, rest: string)
    requires WordChars(w)
    ensures Scan(name, false, w + rest, false) == Scan(name, false, rest, false)
  {
    if w == "" {
      assert w + rest == rest;
    } else {
      assert (w + rest)[1..] == w[1..] + rest;
      assert IsWordChar(w[0]);
      ScanInWord(name, w[1..], rest);
    }
  }

  /** Where a name may start, a word that does not start the name is passed over. */
  lemma {:induction false} ScanWord(name: string, w: string, rest: string)
    requires IsWord(w) && !NamedHere(name, w + rest)
    ensures Scan(name, true, w + rest, false) == Scan(name, false, rest, false)
  {
    assert (w + rest)[1..] == w[1..] + rest;
    assert IsWordChar(w[0]);
    ScanInWord(name, w[1..], rest);
  }

  /** No name starts at a blank, and one may start after it. */
  lemma {:induction false} ScanBlanks(name: string, opens: bool, blanks: string, rest: string)
    requires IsWord(name) && AllBlank(blanks)
    ensures Scan(name, opens, blanks + rest, false)
         == Scan(name, opens || blanks != "", rest, false)
    decreases |blanks|
  {
    if blanks == "" {
      assert blanks + rest == rest;
    } else {
      var s := blanks + rest;
      assert s[1..] == blanks[1..] + rest;
      NotNamedAt(name, s);
      ScanBlanks(name, true, blanks[1..], rest);
    }
  }

  lemma {:induction false} NotNamedAt(name: string, s: string)
    requires IsWord(name)
    requires s != "" && !IsWordChar(s[0])
    ensures !NamedHere(name, s)
  {
    if |name| <= |s| {
      assert IsWordChar(name[0]);
      assert Lower(s[..|name|][0]) != Lower(name[0]);
    }
  }

  /** A word that ends before `rest` is the name if and only if it equals it and
      blanks and '=' follow. */
  lemma {:induction false} NamedAtWord(name: string, w: string, rest: string)
    requires IsWord(name) && IsWord(w)
    requires rest == "" || !IsWordChar(rest[0])
    ensures NamedHere(name, w + rest)
       <==> EqualNoCase(w, name) && var t := DropBlanks(rest); t != "" && t[0] == '='
  {
    var s := w + rest;
    if |name| == |w| {
      assert s[..|name|] == w && s[|name|..] == rest;
    } else if |name| < |w| {
      var t := s[|name|..];
      assert t[0] == w[|name|] && IsWordChar(t[0]);
      assert DropBlanks(t) == t;
    } else if |name| <= |s| {
      assert IsWordChar(name[|w|]);
      assert Lower(s[..|name|][|w|]) != Lower(name[|w|]);
    }
  }

  // A whole element of a list, and then the list.

  /** What may come after an element of a list: nothing, or blanks, not from a tab on, and then
      a comma or nothing. */
  predicate EndsItem(rest: string) {
    rest == "" || (EndsValue(rest[0]) && rest[0] != '"' && var r := DropBlanks(rest); r == "" || r[0] == ',')
  }

  lemma {:induction false} MoreEndsItem(items: seq<Item>, tail: string)
    requires EndsItem(tail)
    ensures EndsItem(PrintMore(items) + tail)
  {
    if items == [] { assert PrintMore(items) + tail == tail; } else { PrintMoreGrouped(items, tail); }
  }

  /** The text of a value after the '=' that ends its name. */
  lemma {:induction false} ScanValue(name: string, after: string, value: Value, rest: string)
    requires IsWord(name) && AllBlank(after) && value.Valid()
    requires EndsItem(rest)
    ensures Scan(name, false, after + (value.Print() + rest), false) == Scan(name, false, rest, false)
  {
    var v := value.Print();
    ScanBlanks(name, false, after, v + rest);
    var opens := after != "";
    match value
    case Quoted(text) =>
      assert (v + rest)[1..] == text + "\"" + rest;
      ScanQuoted(name, false, text, rest);
    case Bare(text) =>
      if opens {
        NamedAtWord(name, text, rest);
        ScanWord(name, text, rest);
      } else {
        ScanInWord(name, text, rest);
      }
  }

  /** An element of another name is passed over. */
  lemma {:induction false} ScanOther(name: string, item: Item, rest: string)
    requires IsWord(name) && item.Valid() && !item.Names(name)
    requires EndsItem(rest)
    ensures Scan(name, true, item.Print() + rest, false) == Scan(name, false, rest, false)
  {
    match item
    case Word(_, w) =>
      NamedAtWord(name, w, rest);
      ScanWord(name, w, rest);
    case Param(_, key, before, after, value) =>
      var tail := after + (value.Print() + rest);
      var r := before + ("=" + tail);
      PrintParam(item, rest);
      NamedAtWord(name, key, r);
      ScanWord(name, key, r);
      ScanBlanks(name, false, before, "=" + tail);
      NotNamedAt(name, "=" + tail);
      assert ("=" + tail)[1..] == tail;
      ScanValue(name, after, value, rest);
  }

  /** A printed value reads back. */
  lemma {:induction false} ReadPrinted(value: Value, rest: string)
    requires value.Valid()
    requires EndsItem(rest)
    ensures ReadValue(value.Print() + rest) == value.Read()
    ensures !IsBlank((value.Print() + rest)[0])
  {
    match value
    case Quoted(text) =>
      assert (value.Print() + rest)[1..] == text + ['"'] + rest;
      UpToConcat(text, '"', rest);
    case Bare(text) =>
      assert IsWordChar(text[0]);
      forall i | 0 <= i < |text| ensures !EndsValue(text[i]) { assert IsWordChar(text[i]); }
      UnquotedValueConcat(text, rest);
  }

  /** A parameter's text, grouped from its end. */
  lemma {:induction false} PrintParam(item: Item, rest: string)
    requires item.Param?
    ensures item.Print() + rest
         == item.key + (item.before + ("=" + (item.after + (item.value.Print() + rest))))
  {}

  /** An element of the name is found. */
  lemma {:induction false} ScanNamed(name: string, item: Item, rest: string)
    requires IsWord(name) && item.Valid() && item.Names(name)
    requires EndsItem(rest)
    ensures Scan(name, true, item.Print() + rest, false) == Some(item.value.Print() + rest)
  {
    var v := item.value.Print() + rest;
    var u := "=" + (item.after + v);
    PrintParam(item, rest);
    ReadPrinted(item.value, rest);
    ScanNamedText(name, item.key, item.before, u, item.after, v);
  }

  lemma {:induction false} ScanNamedText(name: string, key: string, before: string, u: string, after: string, v: string)
    requires IsWord(name) && IsWord(key) && EqualNoCase(key, name)
    requires AllBlank(before) && AllBlank(after)
    requires v != "" && !IsBlank(v[0]) && u == "=" + (after + v)
    ensures Scan(name, true, key + (before + u), false) == Some(v)
  {
    DropBlanksConcat(before, u);
    DropBlanksConcat(after, v);
    assert u[1..] == after + v;
    NamedAtWord(name, key, before + u);
    NamedValue(name, key, before + u, u, v);
    assert IsWordChar(key[0]);
  }

  lemma {:induction false} NamedValue(name: string, key: string, r: string, u: string, v: string)
    requires |name| == |key| && NamedHere(name, key + r)
    requires DropBlanks(r) == u && u != "" && DropBlanks(u[1..]) == v
    ensures ValueOf(name, key + r) == v
  {
    assert (key + r)[|name|..] == r;
  }

  /** What a lookup in the text of a list gives, in Scan's terms. */
  predicate Reads(found: Option<string>, items: seq<Item>, name: string) {
    match found
    case None => Lookup(items, name) == "" && forall i :: 0 <= i < |items| ==> !items[i].Names(name)
    case Some(rest) => ReadValue(rest) == Lookup(items, name)
  }

  /** Commas and blanks after a list hold no parameter. */
  lemma {:induction false} ScanJunk(name: string, opens: bool, junk: string)
    requires IsWord(name) && AllJunk(junk)
    ensures Scan(name, opens, junk, false) == None
    decreases |junk|
  {
    if junk != "" {
      NotNamedAt(name, junk);
      ScanJunk(name, OpensName(junk[0]), junk[1..]);
    }
  }

  /** A text after a list that holds no parameter of the name. */
  predicate HoldsNone(name: string, tail: string) {
    EndsItem(tail) && Scan(name, false, tail, false) == None
  }

  predicate IsJunk(c: char) { IsBlank(c) || c == ',' }

  predicate AllJunk(s: string) {
    forall i :: 0 <= i < |s| ==> IsJunk(s[i])
  }

  /** The elements of a list after its first. */
  lemma {:induction false} ScanMore(name: string, items: seq<Item>, tail: string)
    requires IsWord(name) && ValidItems(items)
    requires HoldsNone(name, tail)
    ensures Reads(Scan(name, false, PrintMore(items) + tail, false), items, name)
    decreases |items|
  {
    if items == [] {
      assert PrintMore(items) + tail == tail;
    } else {
      var item := items[0];
      var rest := PrintMore(items[1..]) + tail;
      var s := PrintMore(items) + tail;
      PrintMoreGrouped(items, tail);
      NotNamedAt(name, s);
      assert s[1..] == item.lead + (item.Print() + rest);
      ScanBlanks(name, true, item.lead, item.Print() + rest);
      ScanFirst(name, items, tail);
    }
  }

  /** A list from its first element. */
  lemma {:induction false} ScanFirst(name: string, items: seq<Item>, tail: string)
    requires IsWord(name) && ValidItems(items) && items != []
    requires HoldsNone(name, tail)
    ensures Reads(Scan(name, true, items[0].Print() + (PrintMore(items[1..]) + tail), false), items, name)
    decreases |items|, 0
  {
    var rest := PrintMore(items[1..]) + tail;
    assert items[0].Valid();
    MoreEndsItem(items[1..], tail);
    if items[0].Names(name) {
      ScanNamed(name, items[0], rest);
      ReadPrinted(items[0].value, rest);
    } else {
      ScanOther(name, items[0], rest);
      ScanMore(name, items[1..], tail);
    }
  }

  /** A scheme and a list of parameters, as an Authorization header holds. */
  function PrintHeader(scheme: string, items: seq<Item>): string
    requires items != []
  {
    scheme + items[0].lead + items[0].Print() + PrintMore(items[1..])
  }

  lemma {:induction false} HeaderGrouped(scheme: string, items: seq<Item>, rest: string)
    requires items != []
    ensures PrintHeader(scheme, items) + rest
         == scheme + (items[0].lead + (items[0].Print() + (PrintMore(items[1..]) + rest)))
  {
    var lead, text, more := items[0].lead, items[0].Print(), PrintMore(items[1..]);
    Assoc(scheme + lead, text, more);
    Assoc(scheme + lead, text + more, rest);
    Assoc(text, more, rest);
    Assoc(scheme, lead, text + (more + rest));
  }

  predicate ValidHeader(scheme: string, items: seq<Item>) {
    IsWord(scheme) && items != [] && ValidItems(items) && items[0].lead != ""
  }

  /** The round trip: a lookup in the text of a header, which a text without the
      parameter may follow, is the lookup in the list it was printed from. */
  lemma {:induction false} LookupRoundTrip(name: string, scheme: string, items: seq<Item>, tail: string)
    requires IsWord(name) && ValidHeader(scheme, items)
    requires HoldsNone(name, tail)
    ensures GetAuthParameter(name, PrintHeader(scheme, items) + tail) == Lookup(items, name)
  {
    var item := items[0];
    assert item.Valid();
    var list := item.Print() + (PrintMore(items[1..]) + tail);
    var rest := item.lead + list;
    HeaderGrouped(scheme, items, tail);
    ItemStart(item, PrintMore(items[1..]) + tail);
    DropBlanksConcat(item.lead, list);
    NamedAtWord(name, scheme, rest);
    ScanWord(name, scheme, rest);
    ScanBlanks(name, false, item.lead, list);
    ScanFirst(name, items, tail);
  }

  /** An element starts with a word. */
  lemma {:induction false} ItemStart(item: Item, rest: string)
    requires item.Valid()
    ensures var s := item.Print() + rest; s != "" && IsWordChar(s[0]) && !IsBlank(s[0])
  {
    if item.Param? { assert IsWordChar(item.key[0]); } else { assert IsWordChar(item.word[0]); }
  }
}
