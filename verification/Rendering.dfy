/** The last steps of `buildSendingMessage` (src/call.cpp): a message is put together from its
    components, cut to the buffer, its [len] filled in with the length of its body, and its
    [authentication] replaced by credentials of any length. The text of a component and the
    credentials are parameters. */
module Rendering {
  import opened Text
  import opened Decimal

  // Numbers of five characters.

  function Spaces(n: nat): (s: string)
    ensures |s| == n && forall i :: 0 <= i < n ==> s[i] == ' '
  {
    if n == 0 then "" else " " + Spaces(n - 1)
  }

  /** "%5u". */
  function Pad(n: nat): (s: string)
    ensures |s| >= 5
  {
    var d := Dec(n);
    if |d| < 5 then Spaces(5 - |d|) + d else d
  }

  function Unpadded(s: string): string {
    if s != "" && s[0] == ' ' then Unpadded(s[1..]) else s
  }

  lemma {:induction false} UnpaddedOf(n: nat, s: string)
    requires s == "" || s[0] != ' '
    ensures Unpadded(Spaces(n) + s) == s
  {
    if n == 0 {
      assert Spaces(0) + s == s;
    } else {
      assert (Spaces(n) + s)[1..] == Spaces(n - 1) + s;
      UnpaddedOf(n - 1, s);
    }
  }

  /** A padded number reads back. */
  lemma {:induction false} PadReads(n: nat)
    ensures var d := Unpadded(Pad(n)); AllDigits(d) && Value(d) == n
  {
    var d := Dec(n);
    assert IsDigit(d[0]);
    if |d| < 5 { UnpaddedOf(5 - |d|, d); }
    DecValue(n);
  }

  function Pow10(k: nat): nat {
    if k == 0 then 1 else 10 * Pow10(k - 1)
  }

  lemma {:induction false} DecLength(n: nat, k: nat)
    requires k > 0 && n < Pow10(k)
    ensures |Dec(n)| <= k
  {
    if n >= 10 {
      assert Pow10(1) == 10;
      DecLength(n / 10, k - 1);
    }
  }

  lemma {:induction false} PadIsFive(n: nat)
    requires n < 100000
    ensures |Pad(n)| == 5
  {
    assert Pow10(5) == 100000 by { assert Pow10(2) == 100; assert Pow10(4) == 10000; }
    DecLength(n, 5);
  }

  // Line ends.

  predicate Clean(c: char) {
    c != '\r' && c != '\n'
  }

  predicate AllClean(s: string) {
    forall i :: 0 <= i < |s| ==> Clean(s[i])
  }

  lemma {:induction false} PadIsClean(n: nat)
    ensures AllClean(Pad(n))
  {
    assert AllDigits(Dec(n));
  }

  /** An empty line: the end of the headers. */
  predicate Blank(s: string, i: int) {
    0 <= i && i + 4 <= |s| && s[i] == '\r' && s[i + 1] == '\n' && s[i + 2] == '\r' && s[i + 3] == '\n'
  }

  /** Where the first empty line is, -1 if there is none. */
  function Body(s: string, from: nat := 0): (r: int)
    requires from <= |s|
    ensures r == -1 || (from <= r && Blank(s, r))
    ensures forall j :: from <= j && (r == -1 || j < r) ==> !Blank(s, j)
    decreases |s| - from
  {
    if Blank(s, from) then from else if from == |s| then -1 else Body(s, from + 1)
  }

  lemma {:induction false} BodyIs(s: string, k: int)
    requires k == -1 || Blank(s, k)
    requires forall j :: 0 <= j && (k == -1 || j < k) ==> !Blank(s, j)
    ensures Body(s) == k
  {
  }

  function Put(s: string, at: nat, n: nat, text: string): string
    requires at + n <= |s|
  {
    s[..at] + text + s[at + n..]
  }

  lemma {:induction false} PutSlices(s: string, at: nat, n: nat, text: string, q: nat, k: nat)
    requires at + n <= |s|
    ensures q + k <= at ==> Put(s, at, n, text)[q..q + k] == s[q..q + k]
    ensures at + n <= q && q + k <= |s| ==> Put(s, at, n, text)[q + |text| - n..q + |text| - n + k] == s[q..q + k]
    ensures Put(s, at, n, text)[at..at + |text|] == text
  {
  }

  /** Clean text for as much clean text leaves the empty lines where they are. */
  lemma {:induction false} PutSame(s: string, at: nat, text: string)
    requires at + |text| <= |s| && text != "" && AllClean(text) && AllClean(s[at..at + |text|])
    ensures Body(Put(s, at, |text|, text)) == Body(s)
  {
    var t := Put(s, at, |text|, text);
    forall j ensures Blank(t, j) <==> Blank(s, j) { BlankSame(s, at, text, j); }
    BodyIs(t, Body(s));
  }

  lemma {:induction false} BlankSame(s: string, at: nat, text: string, j: int)
    requires at + |text| <= |s| && text != "" && AllClean(text) && AllClean(s[at..at + |text|])
    ensures Blank(Put(s, at, |text|, text), j) <==> Blank(s, j)
  {
    var t := Put(s, at, |text|, text);
    forall i | 0 <= i < |s| ensures (at <= i < at + |text| && Clean(t[i]) && Clean(s[i])) || t[i] == s[i] {
      if at <= i < at + |text| { assert s[i] == s[at..at + |text|][i - at]; }
    }
  }

  /** Text that holds no empty line and neither starts nor ends one. */
  ghost predicate Inner(s: string) {
    s != "" && Clean(s[0]) && Clean(s[|s| - 1]) && forall i :: !Blank(s, i)
  }

  /** Such text put before the first empty line moves it, and makes none. */
  lemma {:induction false} PutMoves(s: string, at: nat, n: nat, text: string)
    requires at + n <= |s| && Body(s) >= at + n && Inner(text)
    ensures Body(Put(s, at, n, text)) == Body(s) - n + |text|
  {
    var t, b := Put(s, at, n, text), Body(s);
    forall j | 0 <= j < b - n + |text| ensures !Blank(t, j) { BlankMoves(s, at, n, text, j); }
    assert Blank(t, b - n + |text|);
    BodyIs(t, b - n + |text|);
  }

  lemma {:induction false} BlankMoves(s: string, at: nat, n: nat, text: string, j: nat)
    requires at + n <= |s| && Body(s) >= at + n && Inner(text) && j < Body(s) - n + |text|
    ensures !Blank(Put(s, at, n, text), j)
  {
    var t := Put(s, at, n, text);
    if j < at {
      assert !Blank(s, j);
      assert t[at] == text[0];
    } else if j < at + |text| {
      assert !Blank(text, j - at);
      assert t[at + |text| - 1] == text[|text| - 1];
    } else {
      assert !Blank(s, j - |text| + n);
    }
  }

  // The components.

  /** A component: a text, whatever keyword gave it, the [len] with its offset, or the
      [authentication]. */
  datatype Component = Literal(text: string) | Length(offset: int) | Authentication

  datatype Error = TwoAuthentications | AuthenticationInBody | NoChallenge | BadCredentials

  datatype Result<T> = Ok(value: T) | Fail(error: Error)

  /** A message being built: its text, and where its [len] and its [authentication] are, -1
      for none. */
  datatype Draft = Draft(out: string, length: int, offset: int, auth: int) {
    /** The place of the [authentication] holds its placeholder. */
    predicate Held(h: string) {
      auth != -1 ==> 0 <= auth && auth + |h| <= |out| && out[auth..auth + |h|] == h
    }

    /** The places hold their placeholders, apart from each other. */
    predicate Marked(h: string) {
      (length != -1 ==> 0 <= length && length + 5 <= |out| && out[length..length + 5] == SPACE) &&
      Held(h) &&
      (length != -1 && auth != -1 ==> length + 5 <= auth || auth + |h| <= length)
    }
  }

  const SPACE := "     "

  /** The placeholder of an [authentication]. */
  const HOLDER := "[authentication place holder]"

  /** A text without line ends that closes at its end and not before. */
  predicate IsHolder(h: string) {
    h != "" && AllClean(h) && h[|h| - 1] == ']' && forall i :: 0 <= i < |h| - 1 ==> h[i] != ']'
  }

  lemma {:induction false} HolderIsOne()
    ensures IsHolder(HOLDER)
  {
  }

  function Add(d: Draft, c: Component, h: string): Result<Draft> {
    match c
    case Literal(text) => Ok(d.(out := d.out + text))
    case Length(offset) => Ok(d.(out := d.out + SPACE, length := |d.out|, offset := offset))
    case Authentication => if d.auth != -1 then Fail(TwoAuthentications) else Ok(d.(out := d.out + h, auth := |d.out|))
  }

  /** The components are added up to the one that fills the buffer. */
  function Assemble(d: Draft, cs: seq<Component>, max: nat, h: string): Result<Draft>
    decreases |cs|
  {
    if cs == [] || |d.out| >= max then Ok(d)
    else match Add(d, cs[0], h)
      case Fail(e) => Fail(e)
      case Ok(next) => Assemble(next, cs[1..], max, h)
  }

  lemma {:induction false} AppendKeeps(d: Draft, text: string, h: string)
    requires d.Marked(h)
    ensures d.(out := d.out + text).Marked(h)
  {
    if d.length != -1 { assert (d.out + text)[d.length..d.length + 5] == d.out[d.length..d.length + 5]; }
    if d.auth != -1 { assert (d.out + text)[d.auth..d.auth + |h|] == d.out[d.auth..d.auth + |h|]; }
  }

  lemma {:induction false} AppendAt(s: string, text: string)
    ensures (s + text)[|s|..|s| + |text|] == text
  {
  }

  lemma {:induction false} AddMarked(d: Draft, c: Component, h: string)
    requires d.Marked(h)
    ensures Add(d, c, h).Ok? ==> Add(d, c, h).value.Marked(h)
  {
    match c
    case Literal(text) => AppendKeeps(d, text, h);
    case Length(offset) =>
      AppendKeeps(d, SPACE, h);
      AppendAt(d.out, SPACE);
    case Authentication =>
      AppendKeeps(d, h, h);
      AppendAt(d.out, h);
  }

  lemma {:induction false} AssembleMarked(d: Draft, cs: seq<Component>, max: nat, h: string)
    requires d.Marked(h)
    ensures var r := Assemble(d, cs, max, h); r.Ok? ==> r.value.Marked(h)
    decreases |cs|
  {
    if cs != [] && |d.out| < max {
      AddMarked(d, cs[0], h);
      if Add(d, cs[0], h).Ok? { AssembleMarked(Add(d, cs[0], h).value, cs[1..], max, h); }
    }
  }

  // Cutting to the buffer.

  function Cut(s: string, max: nat): (r: string)
    ensures |r| <= max
    ensures |s| <= max ==> r == s
    ensures |s| > max ==> |r| == max && r <= s
  {
    if |s| <= max then s else s[..max]
  }

  /** Where the first ']' is from a place on, -1 if there is none. */
  function Close(s: string, from: nat): (r: int)
    requires from <= |s|
    ensures r == -1 || (from <= r < |s| && s[r] == ']')
    ensures forall j :: from <= j < |s| && (r == -1 || j < r) ==> s[j] != ']'
    decreases |s| - from
  {
    if from == |s| then -1 else if s[from] == ']' then from else Close(s, from + 1)
  }

  /** The text is cut, and a placeholder that the cut reaches is no longer one. */
  function Settle(d: Draft, max: nat): Draft {
    var out := Cut(d.out, max);
    Draft(out,
          if d.length != -1 && d.length + 5 > |out| then -1 else d.length,
          d.offset,
          if 0 <= d.auth <= |out| && Close(out, d.auth) != -1 then d.auth else -1)
  }

  lemma {:induction false} HolderCloses(s: string, at: nat, h: string)
    requires IsHolder(h) && at + |h| <= |s| && s[at..at + |h|] == h
    ensures Close(s, at) == at + |h| - 1
  {
    forall j | at <= j < at + |h| ensures s[j] == h[j - at] { assert s[j] == s[at..at + |h|][j - at]; }
    assert s[at + |h| - 1] == ']';
  }

  lemma {:induction false} SettleMarked(d: Draft, max: nat, h: string)
    requires IsHolder(h) && d.Marked(h)
    ensures Settle(d, max).Marked(h)
  {
    var e := Settle(d, max);
    if e.length != -1 { assert e.out[e.length..e.length + 5] == d.out[e.length..e.length + 5]; }
    if e.auth != -1 {
      CutHolder(d, max, h);
      assert e.out[e.auth..e.auth + |h|] == d.out[e.auth..e.auth + |h|];
    }
  }

  /** A ']' left after the start of the placeholder is its own, or comes later. */
  lemma {:induction false} CutHolder(d: Draft, max: nat, h: string)
    requires IsHolder(h) && d.Marked(h) && Settle(d, max).auth != -1
    ensures d.auth + |h| <= |Cut(d.out, max)|
  {
    HolderCloses(d.out, d.auth, h);
    var c := Close(Cut(d.out, max), d.auth);
    assert Cut(d.out, max)[c] == d.out[c];
  }

  // Filling in.

  function U32(n: int): nat {
    n % 0x1_0000_0000
  }

  const ZERO := "    0"
  const END := "    0\r\n\r\n"

  /** The number for a message of `size` characters whose first empty line is at `body`. */
  function Number(size: nat, body: nat, offset: int): string {
    if 4 < size - body < 100004 then Pad(U32(size - body - 4 + offset)) else ZERO
  }

  /** The [len] is filled in: with 0 and the end of the headers if they have none. */
  function FillLength(d: Draft): Result<Draft>
    requires d.length != -1 ==> 0 <= d.length && d.length + 5 <= |d.out|
  {
    var b := Body(d.out);
    if d.length == -1 then Ok(d)
    else if d.auth != -1 && (b == -1 || d.auth > b) then Fail(AuthenticationInBody)
    else if b == -1 then Ok(d.(out := d.out[..d.length] + END))
    else Ok(d.(out := Put(d.out, d.length, 5, Number(|d.out|, b, d.offset))))
  }

  /** The [authentication] is replaced, up to the first ']', by what answers the challenge, if
      there is one; the answer may depend on the body. */
  function Authorize(d: Draft, body: int, challenged: bool, name: string, answer: string -> Option<string>)
    : Result<string>
  {
    if !(0 <= d.auth <= |d.out|) then Ok(d.out)
    else if !challenged then Fail(NoChallenge)
    else match answer(if 0 <= body && body + 4 <= |d.out| then d.out[body + 4..] else "")
      case None => Fail(BadCredentials)
      case Some(credentials) =>
        var close := Close(d.out, d.auth);
        Ok(Put(d.out, d.auth, if close == -1 then |d.out| - d.auth else close + 1 - d.auth, name + credentials))
  }

  const EMPTY := Draft("", -1, 0, -1)

  /** The message before it is cut for the second time. */
  function Filled(cs: seq<Component>, max: nat, h: string, challenged: bool, name: string,
      answer: string -> Option<string>): Result<string>
    requires IsHolder(h)
  {
    AssembleMarked(EMPTY, cs, max, h);
    match Assemble(EMPTY, cs, max, h)
    case Fail(e) => Fail(e)
    case Ok(whole) =>
      SettleMarked(whole, max, h);
      var d := Settle(whole, max);
      match FillLength(d)
      case Fail(e) => Fail(e)
      case Ok(e) => Authorize(e, Body(d.out), challenged, name, answer)
  }

  function Build(cs: seq<Component>, max: nat, challenged: bool, name: string, answer: string -> Option<string>)
    : (r: Result<string>)
    ensures r.Ok? ==> |r.value| <= max
  {
    HolderIsOne();
    match Filled(cs, max, HOLDER, challenged, name, answer)
    case Fail(e) => Fail(e)
    case Ok(t) => Ok(Cut(t, max))
  }

  // The number at [len] is the length of the body.

  /** At `q` a text has the number of characters after its first empty line: that number, or 0
      if it needs more than five digits. */
  predicate Tells(t: string, q: int) {
    Body(t) != -1 && 0 <= q && q + 5 <= |t| && t[q..q + 5] == Told(|t| - Body(t) - 4)
  }

  function Told(n: int): string {
    Pad(if 0 <= n < 100000 then n else 0)
  }

  lemma {:induction false} NumberIsFive(size: nat, body: nat)
    requires body + 4 <= size < 0x1_0000_0000
    ensures Number(size, body, 0) == Told(size - body - 4) && |Told(size - body - 4)| == 5
    ensures AllClean(Told(size - body - 4))
  {
    var n := if size - body - 4 < 100000 then size - body - 4 else 0;
    PadIsFive(n);
    PadIsClean(n);
    PadZero();
    assert Told(size - body - 4) == Pad(n);
    if 0 < size - body - 4 < 100000 { assert U32(size - body - 4) == n; }
  }

  lemma {:induction false} PadZero()
    ensures Pad(0) == ZERO
  {
    assert Dec(0) == "0";
    assert Spaces(4) == "    ";
  }

  /** The end of the headers, added with a length of 0. */
  lemma {:induction false} EndTells(s: string, at: nat)
    requires at <= |s| && Body(s) == -1
    ensures Tells(s[..at] + END, at)
  {
    var t := s[..at] + END;
    forall j | 0 <= j < at + 5 ensures !Blank(t, j) {
      assert !Blank(s, j);
      if j < at { assert Clean(t[at]) && Clean(t[at + 1]) && Clean(t[at + 2]); } else { assert Clean(t[j]); }
    }
    assert Blank(t, at + 5);
    BodyIs(t, at + 5);
    assert t[at..at + 5] == ZERO == Pad(0);
  }

  lemma {:induction false} NumberTells(s: string, at: nat)
    requires at + 5 <= |s| < 0x1_0000_0000 && s[at..at + 5] == SPACE && Body(s) != -1
    ensures var t := Put(s, at, 5, Number(|s|, Body(s), 0));
      |t| == |s| && Body(t) == Body(s) && Tells(t, at)
  {
    var b := Body(s);
    NumberIsFive(|s|, b);
    var number := Number(|s|, b, 0);
    PutSame(s, at, number);
    PutSlices(s, at, 5, number, 0, 0);
  }

  lemma {:induction false} FilledTells(d: Draft, h: string)
    requires d.Marked(h) && d.length != -1 && d.offset == 0 && |d.out| < 0x1_0000_0000 && FillLength(d).Ok?
    ensures var e := FillLength(d).value;
      Tells(e.out, d.length) && (d.auth != -1 ==> Body(e.out) == Body(d.out) >= d.auth)
  {
    if Body(d.out) == -1 { EndTells(d.out, d.length); } else { NumberTells(d.out, d.length); }
  }

  lemma {:induction false} FilledHeld(d: Draft, h: string)
    requires d.Marked(h) && d.length != -1 && d.offset == 0 && |d.out| < 0x1_0000_0000 && FillLength(d).Ok?
    ensures FillLength(d).value.Held(h)
  {
    if d.auth != -1 {
      var b := Body(d.out);
      NumberIsFive(|d.out|, b);
      PutSlices(d.out, d.length, 5, Number(|d.out|, b, 0), d.auth, |h|);
    }
  }

  /** The empty line is past the placeholder, which has no line ends. */
  lemma {:induction false} PastHolder(s: string, at: nat, h: string)
    requires AllClean(h) && at + |h| <= |s| && s[at..at + |h|] == h && Body(s) >= at
    ensures Body(s) >= at + |h|
  {
    var b := Body(s);
    forall j | at <= j < at + |h| ensures Clean(s[j]) { assert s[j] == s[at..at + |h|][j - at]; }
  }

  /** Putting credentials for the placeholder keeps the number right, where it then is. */
  lemma {:induction false} PutTells(s: string, at: nat, q: int, text: string, h: string)
    requires AllClean(h) && at + |h| <= |s| && s[at..at + |h|] == h && Body(s) >= at
    requires Tells(s, q) && (q + 5 <= at || at + |h| <= q) && Inner(text)
    ensures var t := Put(s, at, |h|, text);
      Tells(t, if q < at then q else q + |text| - |h|)
  {
    var t := Put(s, at, |h|, text);
    PastHolder(s, at, h);
    PutMoves(s, at, |h|, text);
    PutSlices(s, at, |h|, text, q, 5);
    TellsMoved(s, q, t, if q < at then q else q + |text| - |h|);
  }

  lemma {:induction false} TellsMoved(s: string, q: nat, t: string, p: int)
    requires Tells(s, q) && Body(t) != -1 && |t| - Body(t) == |s| - Body(s)
    requires 0 <= p && p + 5 <= |t| && t[p..p + 5] == s[q..q + 5]
    ensures Tells(t, p)
  {
  }

  /** Where a place of a draft is in the text made of it by credentials. */
  function Moved(d: Draft, q: int, t: string): int {
    if d.auth != -1 && d.auth < q then q + |t| - |d.out| else q
  }

  /** Credentials that hold no empty line, whatever the body. */
  ghost predicate Harmless(name: string, answer: string -> Option<string>) {
    forall body :: answer(body).Some? ==> Inner(name + answer(body).value)
  }

  lemma {:induction false} AuthorizedTells(d: Draft, body: int, h: string, challenged: bool, name: string,
                                           answer: string -> Option<string>, q: int)
    requires IsHolder(h) && d.Held(h) && Tells(d.out, q) && Harmless(name, answer)
    requires d.auth != -1 ==> body == Body(d.out) >= d.auth && (q + 5 <= d.auth || d.auth + |h| <= q)
    requires Authorize(d, body, challenged, name, answer).Ok?
    ensures var t := Authorize(d, body, challenged, name, answer).value; Tells(t, Moved(d, q, t))
  {
    if d.auth != -1 {
      AuthorizedIs(d, body, h, challenged, name, answer);
      PutMovedTells(d, h, name + answer(d.out[body + 4..]).value, q);
    }
  }

  lemma {:induction false} PutMovedTells(d: Draft, h: string, text: string, q: int)
    requires h != "" && AllClean(h) && d.auth != -1 && d.Held(h) && Body(d.out) >= d.auth
    requires Tells(d.out, q) && (q + 5 <= d.auth || d.auth + |h| <= q) && Inner(text)
    ensures var t := Put(d.out, d.auth, |h|, text); Tells(t, Moved(d, q, t))
  {
    var t := Put(d.out, d.auth, |h|, text);
    PutTells(d.out, d.auth, q, text, h);
    PutLength(d.out, d.auth, |h|, text);
    assert Moved(d, q, t) == if q < d.auth then q else q + |text| - |h|;
  }

  lemma {:induction false} PutLength(s: string, at: nat, n: nat, text: string)
    requires at + n <= |s|
    ensures |Put(s, at, n, text)| == |s| - n + |text|
  {
  }

  lemma {:induction false} AuthorizedIs(d: Draft, body: int, h: string, challenged: bool, name: string,
                                        answer: string -> Option<string>)
    requires IsHolder(h) && d.Held(h) && d.auth != -1 && 0 <= body && body + 4 <= |d.out|
    requires Authorize(d, body, challenged, name, answer).Ok?
    ensures var a := answer(d.out[body + 4..]);
      a.Some? && Authorize(d, body, challenged, name, answer).value == Put(d.out, d.auth, |h|, name + a.value)
  {
    HolderCloses(d.out, d.auth, h);
  }

  /** Where the [len] of a message is once the message is filled in. */
  function LengthPlace(cs: seq<Component>, max: nat, h: string, t: string): int
    requires IsHolder(h) && Assemble(EMPTY, cs, max, h).Ok?
  {
    AssembleMarked(EMPTY, cs, max, h);
    SettleMarked(Assemble(EMPTY, cs, max, h).value, max, h);
    var d := Settle(Assemble(EMPTY, cs, max, h).value, max);
    if FillLength(d).Ok? then Moved(FillLength(d).value, d.length, t) else -1
  }

  /** Whatever the components, the challenge and the credentials, the message before its second
      cut has the length of its body at [len]. */
  lemma {:induction false} TellsBody(cs: seq<Component>, max: nat, h: string, challenged: bool, name: string,
                                     answer: string -> Option<string>)
    requires IsHolder(h) && max < 0x1_0000_0000 && Assemble(EMPTY, cs, max, h).Ok?
    requires var d := Settle(Assemble(EMPTY, cs, max, h).value, max); d.length != -1 && d.offset == 0
    requires Harmless(name, answer)
    requires Filled(cs, max, h, challenged, name, answer).Ok?
    ensures var t := Filled(cs, max, h, challenged, name, answer).value; Tells(t, LengthPlace(cs, max, h, t))
  {
    var whole := Assemble(EMPTY, cs, max, h).value;
    var d := Settle(whole, max);
    AssembleMarked(EMPTY, cs, max, h);
    SettleMarked(whole, max, h);
    FilledTells(d, h);
    FilledHeld(d, h);
    AuthorizedTells(FillLength(d).value, Body(d.out), h, challenged, name, answer, d.length);
  }

  /** The number at `q` in a message. */
  function NumberAt(t: string, q: int): Option<nat> {
    if 0 <= q && q + 5 <= |t| && AllDigits(Unpadded(t[q..q + 5])) then Some(Value(Unpadded(t[q..q + 5]))) else None
  }

  lemma {:induction false} TellsNumber(t: string, q: int)
    requires Tells(t, q)
    ensures var n := |t| - Body(t) - 4; NumberAt(t, q) == Some(if n < 100000 then n else 0)
  {
    var n := |t| - Body(t) - 4;
    PadReads(if n < 100000 then n else 0);
  }

  /** What a second cut leaves of the number: right for a body of at most five digits exactly
      when nothing was cut, and for a longer one, told as 0, exactly when nothing of it is left. */
  lemma {:induction false} CutAgain(t: string, q: int, max: nat)
    requires Tells(t, q) && q + 5 <= max && Body(t) + 4 <= max
    ensures var r, n := Cut(t, max), |t| - Body(t) - 4;
      Body(r) == Body(t) && NumberAt(r, q).Some? &&
      (NumberAt(r, q).value == |r| - Body(r) - 4 <==> if n < 100000 then |t| <= max else max == Body(t) + 4)
  {
    TellsNumber(t, q);
    if |t| > max {
      var r := Cut(t, max);
      assert r[q..q + 5] == t[q..q + 5];
      SameBlanks(t, max);
      BodyIs(r, Body(t));
    }
  }

  lemma {:induction false} SameBlanks(t: string, max: nat)
    requires max < |t|
    ensures forall j :: Blank(t[..max], j) <==> Blank(t, j) && j + 4 <= max
  {
  }

  /** A cut into the headers leaves no body. */
  lemma {:induction false} CutHeaders(t: string, max: nat)
    requires Body(t) == -1 || Body(t) + 4 > max
    ensures Body(Cut(t, max)) == -1
  {
    if |t| > max {
      SameBlanks(t, max);
      BodyIs(t[..max], -1);
    }
  }

  /** The message that is sent has, at its [len], the length of its body: exactly when that has at
      most five digits and the message was not cut again once its credentials were put in. (A
      longer body, told as 0, would have to be cut off whole.) A second cut into the headers
      leaves no body. */
  lemma {:induction false} LengthIsBody(cs: seq<Component>, max: nat, challenged: bool, name: string,
                                        answer: string -> Option<string>)
    requires max < 0x1_0000_0000 && Assemble(EMPTY, cs, max, HOLDER).Ok?
    requires var d := Settle(Assemble(EMPTY, cs, max, HOLDER).value, max); d.length != -1 && d.offset == 0
    requires Harmless(name, answer)
    requires IsHolder(HOLDER) && Filled(cs, max, HOLDER, challenged, name, answer).Ok?
    ensures var t := Filled(cs, max, HOLDER, challenged, name, answer).value;
      var r, q := Build(cs, max, challenged, name, answer), LengthPlace(cs, max, HOLDER, t);
      r.Ok? && Body(t) != -1 &&
      (Body(t) + 4 > max ==> Body(r.value) == -1) &&
      (Body(t) + 4 <= max && q + 5 <= max ==>
         Body(r.value) == Body(t) && NumberAt(r.value, q).Some? &&
         (NumberAt(r.value, q).value == |r.value| - Body(r.value) - 4
          <==> if |t| - Body(t) - 4 < 100000 then |t| <= max else max == Body(t) + 4))
  {
    TellsBody(cs, max, HOLDER, challenged, name, answer);
    var t := Filled(cs, max, HOLDER, challenged, name, answer).value;
    var q := LengthPlace(cs, max, HOLDER, t);
    if Body(t) + 4 > max { CutHeaders(t, max); }
    if Body(t) + 4 <= max && q + 5 <= max { CutAgain(t, q, max); }
  }

  // The whole message, by its components.

  predicate HasLength(cs: seq<Component>) {
    cs != [] && (cs[0].Length? || HasLength(cs[1..]))
  }

  function Authentications(cs: seq<Component>): nat {
    if cs == [] then 0 else Authentications(cs[1..]) + if cs[0].Authentication? then 1 else 0
  }

  /** The text of a component; `more` is whether a [len] comes after it. */
  function Piece(c: Component, more: bool, number: string, credentials: string): string {
    match c
    case Literal(text) => text
    case Length(_) => if more then SPACE else number
    case Authentication => credentials
  }

  /** The texts of the components one after the other, with a number for the last [len]. */
  function Shown(cs: seq<Component>, number: string, credentials: string): string {
    if cs == [] then ""
    else Piece(cs[0], HasLength(cs[1..]), number, credentials) + Shown(cs[1..], number, credentials)
  }

  /** The offset of the last [len]. */
  function OffsetOf(cs: seq<Component>): int {
    if cs == [] then 0
    else if cs[0].Length? && !HasLength(cs[1..]) then cs[0].offset else OffsetOf(cs[1..])
  }

  function FirstSize(c: Component, h: string): nat {
    match c case Literal(text) => |text| case Length(_) => 5 case Authentication => |h|
  }

  /** Where the last [len] is, and where the [authentication]. */
  function LengthAt(cs: seq<Component>, h: string): nat {
    if cs == [] || !HasLength(cs) || (cs[0].Length? && !HasLength(cs[1..])) then 0
    else FirstSize(cs[0], h) + LengthAt(cs[1..], h)
  }

  function AuthAt(cs: seq<Component>, h: string): nat {
    if cs == [] || cs[0].Authentication? then 0 else FirstSize(cs[0], h) + AuthAt(cs[1..], h)
  }

  /** Components that fit are put together as they are. */
  lemma {:induction false} AssembleIs(d: Draft, cs: seq<Component>, max: nat, h: string)
    requires cs == [] || |d.out| + |Shown(cs, SPACE, h)| < max
    requires Authentications(cs) <= if d.auth == -1 then 1 else 0
    ensures Assemble(d, cs, max, h) == Ok(Draft(
      d.out + Shown(cs, SPACE, h), if HasLength(cs) then |d.out| + LengthAt(cs, h) else d.length,
      if HasLength(cs) then OffsetOf(cs) else d.offset,
      if Authentications(cs) == 1 then |d.out| + AuthAt(cs, h) else d.auth))
    decreases |cs|
  {
    if cs == [] {
      assert d.out + "" == d.out;
    } else {
      var next := Add(d, cs[0], h).value;
      AssembleIs(next, cs[1..], max, h);
      assert next.out + Shown(cs[1..], SPACE, h) == d.out + Shown(cs, SPACE, h);
    }
  }

  lemma {:induction false} TwoAuthenticate(d: Draft, cs: seq<Component>, max: nat, h: string)
    requires |d.out| + |Shown(cs, SPACE, h)| < max && Authentications(cs) > if d.auth == -1 then 1 else 0
    ensures Assemble(d, cs, max, h) == Fail(TwoAuthentications)
    decreases |cs|
  {
    if !(cs[0].Authentication? && d.auth != -1) {
      TwoAuthenticate(Add(d, cs[0], h).value, cs[1..], max, h);
    }
  }

  lemma {:induction false} PutBehind(a: string, s: string, at: nat, n: nat, text: string)
    requires at + n <= |s|
    ensures Put(a + s, |a| + at, n, text) == a + Put(s, at, n, text)
  {
  }

  /** At `at` a text holds another, which put for a third makes a fourth. */
  predicate Placed(s: string, at: nat, was: string, text: string, t: string) {
    at + |was| <= |s| && s[at..at + |was|] == was && Put(s, at, |was|, text) == t
  }

  lemma {:induction false} PlacedBehind(a: string, s: string, at: nat, was: string, text: string, t: string)
    requires Placed(s, at, was, text, t)
    ensures Placed(a + s, |a| + at, was, text, a + t)
  {
    PutBehind(a, s, at, |was|, text);
    assert (a + s)[|a| + at..|a| + at + |was|] == s[at..at + |was|];
  }

  lemma {:induction false} PlacedFirst(was: string, text: string, s: string)
    ensures Placed(was + s, 0, was, text, text + s)
  {
  }

  lemma {:induction false} PutNumber(cs: seq<Component>, number: string, h: string)
    requires HasLength(cs)
    ensures Placed(Shown(cs, SPACE, h), LengthAt(cs, h), SPACE, number, Shown(cs, number, h))
  {
    var rest := cs[1..];
    if HasLength(rest) {
      PutNumber(rest, number, h);
      PlacedBehind(Piece(cs[0], true, SPACE, h), Shown(rest, SPACE, h), LengthAt(rest, h), SPACE, number,
                   Shown(rest, number, h));
    } else {
      NoLength(rest, SPACE, number, h);
      PlacedFirst(SPACE, number, Shown(rest, SPACE, h));
    }
  }

  lemma {:induction false} NoLength(cs: seq<Component>, number: string, other: string, h: string)
    requires !HasLength(cs)
    ensures Shown(cs, number, h) == Shown(cs, other, h)
  {
    if cs != [] { NoLength(cs[1..], number, other, h); }
  }

  lemma {:induction false} NoAuthentication(cs: seq<Component>, number: string, h: string, other: string)
    requires Authentications(cs) == 0
    ensures Shown(cs, number, h) == Shown(cs, number, other)
  {
    if cs != [] { NoAuthentication(cs[1..], number, h, other); }
  }

  lemma {:induction false} PieceSize(c: Component, more: bool, number: string, h: string, other: string)
    requires !c.Authentication? && (c.Length? ==> |number| == 5)
    ensures |Piece(c, more, number, h)| == FirstSize(c, h) && Piece(c, more, number, other) == Piece(c, more, number, h)
  {
  }

  lemma {:induction false} AuthBehind(cs: seq<Component>, h: string)
    requires cs != [] && !cs[0].Authentication?
    ensures AuthAt(cs, h) == FirstSize(cs[0], h) + AuthAt(cs[1..], h)
  {
  }

  lemma {:induction false} PutCredentials(cs: seq<Component>, number: string, h: string, credentials: string)
    requires Authentications(cs) == 1 && (HasLength(cs) ==> |number| == 5)
    ensures Placed(Shown(cs, number, h), AuthAt(cs, h), h, credentials, Shown(cs, number, credentials))
  {
    var rest := cs[1..];
    if cs[0].Authentication? {
      NoAuthentication(rest, number, h, credentials);
      PlacedFirst(h, credentials, Shown(rest, number, h));
    } else {
      PutCredentials(rest, number, h, credentials);
      CredentialsBehind(cs, number, h, credentials);
    }
  }

  lemma {:induction false} CredentialsBehind(cs: seq<Component>, number: string, h: string, credentials: string)
    requires cs != [] && !cs[0].Authentication? && (HasLength(cs) ==> |number| == 5)
    requires Placed(Shown(cs[1..], number, h), AuthAt(cs[1..], h), h, credentials, Shown(cs[1..], number, credentials))
    ensures Placed(Shown(cs, number, h), AuthAt(cs, h), h, credentials, Shown(cs, number, credentials))
  {
    ShownFirst(cs, number, h, credentials);
    PlacedOf(Piece(cs[0], HasLength(cs[1..]), number, h), Shown(cs[1..], number, h), AuthAt(cs[1..], h), h, credentials,
             Shown(cs[1..], number, credentials), Shown(cs, number, h), AuthAt(cs, h), Shown(cs, number, credentials));
  }

  lemma {:induction false} PlacedOf(a: string, s: string, at: nat, was: string, text: string, t: string,
                                    whole: string, there: nat, made: string)
    requires Placed(s, at, was, text, t) && whole == a + s && there == |a| + at && made == a + t
    ensures Placed(whole, there, was, text, made)
  {
    PlacedBehind(a, s, at, was, text, t);
  }

  lemma {:induction false} ShownFirst(cs: seq<Component>, number: string, h: string, credentials: string)
    requires cs != [] && !cs[0].Authentication? && (HasLength(cs) ==> |number| == 5)
    ensures var rest := cs[1..];
      var first := Piece(cs[0], HasLength(rest), number, h);
      Shown(cs, number, h) == first + Shown(rest, number, h) &&
      Shown(cs, number, credentials) == first + Shown(rest, number, credentials) &&
      AuthAt(cs, h) == |first| + AuthAt(rest, h)
  {
    PieceSize(cs[0], HasLength(cs[1..]), number, h, credentials);
    AuthBehind(cs, h);
  }

  /** The number for a [len]: that of the characters after the empty line, with its offset; 0
      for none, or for more than five digits tell. */
  predicate IsNumber(s: string, offset: int, number: string) {
    var n := |s| - Body(s) - 4;
    |number| == 5 &&
    if n == 0 || n >= 100000 then number == "    0" else 0 <= n + offset < 0x1_0000_0000 && number == Pad(n + offset)
  }

  /** There is one unless an offset makes it less than 0, or longer than five digits. */
  lemma {:induction false} HasNumber(s: string, offset: int)
    requires Body(s) != -1 && 0 <= |s| - Body(s) - 4 + offset < 100000
    ensures var n := |s| - Body(s) - 4;
      IsNumber(s, offset, if n == 0 || n >= 100000 then "    0" else Pad(n + offset))
  {
    PadIsFive(|s| - Body(s) - 4 + offset);
  }

  lemma {:induction false} NumberIs(s: string, offset: int, number: string)
    requires Body(s) != -1 && IsNumber(s, offset, number)
    ensures Number(|s|, Body(s), offset) == number
  {
    NumberOf(|s|, Body(s), offset, number);
  }

  lemma {:induction false} NumberOf(size: nat, body: nat, offset: int, number: string)
    requires size - body - 4 >= 0
    requires var n := size - body - 4;
      if n == 0 || n >= 100000 then number == "    0" else 0 <= n + offset < 0x1_0000_0000 && number == Pad(n + offset)
    ensures Number(size, body, offset) == number
  {
    var n := size - body - 4;
    if 0 < n < 100000 { assert U32(n + offset) == n + offset; }
  }

  /** The draft of components that fit. */
  function DraftOf(cs: seq<Component>, number: string, h: string): Draft {
    Draft(Shown(cs, number, h), if HasLength(cs) then LengthAt(cs, h) else -1,
          if HasLength(cs) then OffsetOf(cs) else 0, if Authentications(cs) == 1 then AuthAt(cs, h) else -1)
  }

  /** The number is the one for its [len], and its [authentication] is before its body. */
  predicate Numbered(cs: seq<Component>, number: string, h: string) {
    var s := Shown(cs, SPACE, h);
    HasLength(cs) ==>
      Body(s) != -1 && IsNumber(s, OffsetOf(cs), number) && (Authentications(cs) == 1 ==> AuthAt(cs, h) <= Body(s))
  }

  lemma {:induction false} FilledIs(cs: seq<Component>, h: string, number: string)
    requires Authentications(cs) <= 1 && Numbered(cs, number, h)
    ensures var d := DraftOf(cs, SPACE, h);
      (d.length != -1 ==> d.length + 5 <= |d.out|) && FillLength(d) == Ok(DraftOf(cs, number, h))
  {
    if HasLength(cs) {
      PutNumber(cs, number, h);
      NumberIs(Shown(cs, SPACE, h), OffsetOf(cs), number);
    } else {
      NoLength(cs, SPACE, number, h);
    }
  }

  /** Nothing of a draft that fits is cut. */
  lemma {:induction false} SettleFits(cs: seq<Component>, max: nat, h: string)
    requires IsHolder(h) && |Shown(cs, SPACE, h)| < max && Authentications(cs) <= 1
    ensures Settle(DraftOf(cs, SPACE, h), max) == DraftOf(cs, SPACE, h)
  {
    if HasLength(cs) { PutNumber(cs, SPACE, h); }
    if Authentications(cs) == 1 {
      PutCredentials(cs, SPACE, h, h);
      HolderCloses(Shown(cs, SPACE, h), AuthAt(cs, h), h);
    }
  }

  lemma {:induction false} AuthorizePut(d: Draft, h: string, body: int, challenged: bool, name: string,
                                        answer: string -> Option<string>)
    requires IsHolder(h) && d.auth != -1 && d.Held(h) && body >= -1
    ensures var credentials := answer(if body == -1 || body + 4 > |d.out| then "" else d.out[body + 4..]);
      Authorize(d, body, challenged, name, answer) ==
        if !challenged then Fail(NoChallenge)
        else if credentials.None? then Fail(BadCredentials)
        else Ok(Put(d.out, d.auth, |h|, name + credentials.value))
  {
    HolderCloses(d.out, d.auth, h);
  }

  /** Credentials put for the placeholder make the text with them. */
  lemma {:induction false} AuthorizePlaced(d: Draft, h: string, body: int, challenged: bool, name: string,
                                           answer: string -> Option<string>, shown: string -> string)
    requires IsHolder(h) && d.auth >= 0 && body >= -1
    requires forall text :: Placed(d.out, d.auth, h, text, shown(text))
    ensures var credentials := answer(if body == -1 || body + 4 > |d.out| then "" else d.out[body + 4..]);
      Authorize(d, body, challenged, name, answer) ==
        if !challenged then Fail(NoChallenge)
        else if credentials.None? then Fail(BadCredentials)
        else Ok(shown(name + credentials.value))
  {
    assert Placed(d.out, d.auth, h, h, shown(h));
    AuthorizePut(d, h, body, challenged, name, answer);
    var credentials := answer(if body == -1 || body + 4 > |d.out| then "" else d.out[body + 4..]);
    if credentials.Some? { assert Placed(d.out, d.auth, h, name + credentials.value, shown(name + credentials.value)); }
  }

  lemma {:induction false} CredentialsShown(cs: seq<Component>, h: string, d: Draft, number: string, body: int,
                                            challenged: bool, name: string, answer: string -> Option<string>)
    requires IsHolder(h) && Authentications(cs) == 1 && (HasLength(cs) ==> |number| == 5) && body >= -1
    requires d.out == Shown(cs, number, h) && d.auth == AuthAt(cs, h)
    ensures var credentials := answer(if body == -1 || body + 4 > |d.out| then "" else d.out[body + 4..]);
      Authorize(d, body, challenged, name, answer) ==
        if !challenged then Fail(NoChallenge)
        else if credentials.None? then Fail(BadCredentials)
        else Ok(Shown(cs, number, name + credentials.value))
  {
    var shown := text => Shown(cs, number, text);
    forall text ensures Placed(d.out, d.auth, h, text, shown(text)) { PutCredentials(cs, number, h, text); }
    AuthorizePlaced(d, h, body, challenged, name, answer, shown);
  }

  lemma {:induction false} FilledShows(cs: seq<Component>, max: nat, h: string, challenged: bool, name: string,
                                       answer: string -> Option<string>, number: string)
    requires IsHolder(h) && |Shown(cs, SPACE, h)| < max && Authentications(cs) <= 1 && Numbered(cs, number, h)
    ensures Filled(cs, max, h, challenged, name, answer)
         == Authorize(DraftOf(cs, number, h), Body(Shown(cs, SPACE, h)), challenged, name, answer)
  {
    AssembleIs(EMPTY, cs, max, h);
    var s := Shown(cs, SPACE, h);
    assert "" + s == s;
    assert Assemble(EMPTY, cs, max, h) == Ok(DraftOf(cs, SPACE, h));
    SettleFits(cs, max, h);
    FilledIs(cs, h, number);
  }

  /** A message that fits: the texts of its components in order, with the length of its body for
      its [len] and the credentials for its [authentication], or the error that stops it. */
  lemma {:induction false} BuildShows(cs: seq<Component>, max: nat, challenged: bool, name: string,
                                      answer: string -> Option<string>, number: string, h: string)
    requires h == HOLDER && |Shown(cs, SPACE, h)| < max && Authentications(cs) <= 1 && Numbered(cs, number, h)
    ensures var b, t := Body(Shown(cs, SPACE, h)), Shown(cs, number, h);
      var credentials := answer(if b == -1 || b + 4 > |t| then "" else t[b + 4..]);
      Build(cs, max, challenged, name, answer) ==
        if Authentications(cs) == 0 then Ok(Cut(t, max))
        else if !challenged then Fail(NoChallenge)
        else if credentials.None? then Fail(BadCredentials)
        else Ok(Cut(Shown(cs, number, name + credentials.value), max))
  {
    HolderIsOne();
    FilledShows(cs, max, h, challenged, name, answer, number);
    if Authentications(cs) == 1 {
      CredentialsShown(cs, h, DraftOf(cs, number, h), number, Body(Shown(cs, SPACE, h)), challenged, name, answer);
    }
  }

  lemma {:induction false} FilledElse(cs: seq<Component>, max: nat, h: string, challenged: bool, name: string,
                                      answer: string -> Option<string>)
    requires IsHolder(h) && |Shown(cs, SPACE, h)| < max && HasLength(cs) && Authentications(cs) <= 1
    ensures var s := Shown(cs, SPACE, h);
      LengthAt(cs, h) <= |s| &&
      (Authentications(cs) == 1 && (Body(s) == -1 || AuthAt(cs, h) > Body(s)) ==>
         Filled(cs, max, h, challenged, name, answer) == Fail(AuthenticationInBody)) &&
      (Authentications(cs) == 0 && Body(s) == -1 ==>
         Filled(cs, max, h, challenged, name, answer) == Ok(s[..LengthAt(cs, h)] + "    0\r\n\r\n"))
  {
    AssembleIs(EMPTY, cs, max, h);
    var s := Shown(cs, SPACE, h);
    assert "" + s == s;
    assert Assemble(EMPTY, cs, max, h) == Ok(DraftOf(cs, SPACE, h));
    SettleFits(cs, max, h);
    FillElse(cs, h);
  }

  lemma {:induction false} FillElse(cs: seq<Component>, h: string)
    requires HasLength(cs) && Authentications(cs) <= 1
    ensures var d, s := DraftOf(cs, SPACE, h), Shown(cs, SPACE, h);
      d.length + 5 <= |d.out| &&
      (Authentications(cs) == 1 && (Body(s) == -1 || AuthAt(cs, h) > Body(s)) ==>
         FillLength(d) == Fail(AuthenticationInBody)) &&
      (Authentications(cs) == 0 && Body(s) == -1 ==>
         FillLength(d) == Ok(d.(out := s[..LengthAt(cs, h)] + "    0\r\n\r\n")))
  {
    PutNumber(cs, SPACE, h);
  }

  /** The other messages that fit: two [authentication], one in the body of a message with a [len],
      and a [len] of a message without a body, which ends there. */
  lemma {:induction false} BuildElse(cs: seq<Component>, max: nat, challenged: bool, name: string,
                                     answer: string -> Option<string>, h: string)
    requires h == HOLDER && |Shown(cs, SPACE, h)| < max
    ensures Authentications(cs) > 1 ==> Build(cs, max, challenged, name, answer) == Fail(TwoAuthentications)
    ensures var s := Shown(cs, SPACE, h);
      HasLength(cs) && Authentications(cs) == 1 && (Body(s) == -1 || AuthAt(cs, h) > Body(s)) ==>
        Build(cs, max, challenged, name, answer) == Fail(AuthenticationInBody)
    ensures var s := Shown(cs, SPACE, h);
      HasLength(cs) && Authentications(cs) == 0 && Body(s) == -1 ==>
        LengthAt(cs, h) <= |s| &&
        Build(cs, max, challenged, name, answer) == Ok(Cut(s[..LengthAt(cs, h)] + "    0\r\n\r\n", max))
  {
    HolderIsOne();
    if Authentications(cs) > 1 {
      TwoAuthenticate(EMPTY, cs, max, h);
    } else if HasLength(cs) {
      FilledElse(cs, max, h, challenged, name, answer);
    }
  }

  /** `buildSendingMessage`, from the components on. */
  method BuildMessage(cs: seq<Component>, max: nat, challenged: bool, name: string, answer: string -> Option<string>)
    returns (r: Result<string>)
    ensures r == Build(cs, max, challenged, name, answer)
  {
    var d := EMPTY;
    var i := 0;
    while i < |cs| && |d.out| < max
      invariant i <= |cs| && Assemble(d, cs[i..], max, HOLDER) == Assemble(EMPTY, cs, max, HOLDER)
    {
      match Add(d, cs[i], HOLDER) {
        case Fail(e) => return Fail(e);
        case Ok(next) => d := next;
      }
      assert cs[i..][1..] == cs[i + 1..];
      i := i + 1;
    }
    HolderIsOne();
    AssembleMarked(EMPTY, cs, max, HOLDER);
    SettleMarked(d, max, HOLDER);
    d := Settle(d, max);
    var body := Body(d.out);
    match FillLength(d) {
      case Fail(e) => return Fail(e);
      case Ok(filled) =>
        match Authorize(filled, body, challenged, name, answer) {
          case Fail(e) => return Fail(e);
          case Ok(t) => return Ok(Cut(t, max));
        }
    }
  }
}
