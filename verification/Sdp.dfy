/** What src/call.cpp reads of a received SDP: the address, the port and the a=crypto lines
    of a media come from its own section, or the address from the session part, whatever the
    other sections hold. */
module Sdp {
  import opened Text

  predicate StartsWith(s: string, p: string) {
    |p| <= |s| && s[..|p|] == p
  }

  /** What is left of `s` at the first `p` in it. */
  function FindText(s: string, p: string): (r: Option<string>)
    ensures r.Some? ==> |r.value| <= |s|
  {
    if StartsWith(s, p) then Some(s) else if s == "" then None else FindText(s[1..], p)
  }

  /** The part of `s` before `rest`, which it ends with. */
  function Before(s: string, rest: Option<string>): string {
    match rest
    case None => s
    case Some(r) => if |r| <= |s| then s[..|s| - |r|] else s
  }

  // The source's searches.

  predicate EndsField(c: char) {
    c == ' ' || c == '/' || c == '\r' || c == '\n'
  }

  /** The text up to a blank, a slash or the end of the line. */
  function UpToField(s: string): (r: string)
    ensures |r| <= |s|
  {
    if s == "" || EndsField(s[0]) then "" else [s[0]] + UpToField(s[1..])
  }

  /** That text, "" if nothing ends it. */
  function Field(s: string): string {
    var f := UpToField(s);
    if |f| < |s| then f else ""
  }

  /** `find_in_sdp`. */
  function FindInSdp(pattern: string, part: string): string {
    match FindText(part, pattern)
    case None => ""
    case Some(r) => Field(r[Least(|pattern|, |r|)..])
  }

  function Least(a: nat, b: nat): nat { if a < b then a else b }

  /** `sdp_connection`: the address of a c= line, and whether it is an IPv6 one. */
  function Connection(part: string): (string, bool) {
    var four := FindInSdp(IP4, part);
    if four != "" then (four, false) else (FindInSdp(IP6, part), true)
  }

  const MEDIA := "\nm="

  /** `sdp_media_section`, of a text that starts at an m= line. */
  function MediaSection(s: string): string {
    if s == "" then "" else Before(s, FindText(s[1..], MEDIA))
  }

  /** The part of an SDP before its first m= line. */
  function SessionPart(sdp: string): string {
    Before(sdp, FindText(sdp, MEDIA))
  }

  /** `sdp_media_connection`. */
  function MediaConnection(sdp: string, section: string): (string, bool) {
    var own := Connection(section);
    if own.0 != "" then own else Connection(SessionPart(sdp))
  }

  /** What a search for a media finds: its section, its port, and the text from the space
      after the port on. The reader of numbers is a parameter. */
  datatype Media = Media(section: string, port: int, rest: Option<string>)

  function AfterPort(s: string, prefix: string): Option<string> {
    if |s| <= |prefix| then None else FindText(s[|prefix| + 1..], " ")
  }

  /** `sdp_media_port`. */
  function MediaPort(s: string, prefix: string, number: string -> int): Media {
    MediaAt(FindText(s, prefix), prefix, number)
  }

  function MediaAt(found: Option<string>, prefix: string, number: string -> int): Media {
    match found
    case None => Media("", 0, None)
    case Some(at) =>
      var rest := AfterPort(at, prefix);
      Media(MediaSection(at),
            if rest.None? then 0 else number(Before(at[|prefix| + 1..], rest)),
            rest)
  }

  /** The media of a kind: the first, or the second if the first has port 0. */
  function FindMedia(sdp: string, prefix: string, number: string -> int): Media {
    var first := MediaPort(sdp, prefix, number);
    if first.port != 0 || first.rest.None? then first else MediaPort(first.rest.value, prefix, number)
  }

  /** `sdp_media_remote`: where to send the media of a kind, "" and 0 if there is none. */
  function MediaRemote(sdp: string, prefix: string, number: string -> int): (string, int) {
    var media := FindMedia(sdp, prefix, number);
    if media.port == 0 then ("", 0) else (MediaConnection(sdp, media.section).0, media.port)
  }

  const CRYPTO := "\na=crypto:"

  /** A place found before the limit of the section, of the text left at each. */
  predicate InSection(found: Option<string>, limit: Option<string>) {
    found.Some? && (limit.None? || |found.value| > |limit.value|)
  }

  /** The line that starts with the line feed the text starts with, and what is left at the
      next line feed, if there is one. */
  function LineAt(s: string): Option<(string, string)> {
    match FindText(if s == "" then "" else s[1..], "\n")
    case None => None
    case Some(r) => Some((Before(s, Some(r)), r))
  }

  /** The crypto lines read from a text, two at most, none past the limit. */
  function CryptoFrom(s: string, limit: Option<string>, most: nat): seq<string>
    decreases most
  {
    var found := FindText(s, CRYPTO);
    if most == 0 || !InSection(found, limit) then []
    else match LineAt(found.value)
      case None => []
      case Some((line, rest)) => [line] + CryptoFrom(rest, limit, most - 1)
  }

  /** The crypto lines that `extract_srtp_remote_info` reads for a kind of media. */
  function CryptoLines(sdp: string, prefix: string, number: string -> int): seq<string> {
    var media := FindMedia(sdp, prefix, number);
    if media.port == 0 || media.rest.None? then []
    else CryptoFrom(media.rest.value, FindText(media.rest.value, MEDIA), 2)
  }

  // SDPs by lines and sections. A line has no line feed; it comes after one.

  predicate IsLine(l: string) {
    '\n' !in l
  }

  predicate AreLines(ls: seq<string>) {
    forall i :: 0 <= i < |ls| ==> IsLine(ls[i])
  }

  function PrintLines(ls: seq<string>): string {
    if ls == [] then "" else "\n" + (ls[0] + PrintLines(ls[1..]))
  }

  /** The lines of a media: an m= line and lines of other kinds. */
  predicate IsSection(ls: seq<string>) {
    ls != [] && AreLines(ls) && StartsWith(ls[0], "m=") &&
    forall i :: 1 <= i < |ls| ==> !StartsWith(ls[i], "m=")
  }

  predicate IsSession(ls: seq<string>) {
    AreLines(ls) && forall i :: 0 <= i < |ls| ==> !StartsWith(ls[i], "m=")
  }

  predicate AreSections(ss: seq<seq<string>>) {
    forall i :: 0 <= i < |ss| ==> IsSection(ss[i])
  }

  function PrintSections(ss: seq<seq<string>>): string {
    if ss == [] then "" else PrintLines(ss[0]) + PrintSections(ss[1..])
  }

  /** An SDP: what is before its first line feed, its session lines and its sections. */
  datatype Document = Document(start: string, session: seq<string>, sections: seq<seq<string>>)
  {
    predicate Valid() {
      IsLine(start) && IsSession(session) && AreSections(sections)
    }

    function Print(): string {
      start + (PrintLines(session) + PrintSections(sections))
    }
  }

  /** A text that follows a line. */
  predicate Follows(r: string) {
    r == "" || r[0] == '\n'
  }

  // Every text is such an SDP.

  function UpToFeed(s: string): (l: string)
    ensures |l| <= |s| && IsLine(l)
    ensures l == s[..|l|] && Follows(s[|l|..])
  {
    if s == "" || s[0] == '\n' then "" else [s[0]] + UpToFeed(s[1..])
  }

  /** The SDP with a line put before its first. */
  function Under(start: string, d: Document): Document {
    if StartsWith(d.start, "m=") then Document(start, [], [[d.start] + d.session] + d.sections)
    else Document(start, [d.start] + d.session, d.sections)
  }

  function Parse(s: string): Document {
    var start := UpToFeed(s);
    if |start| == |s| then Document(s, [], []) else Under(start, Parse(s[|start| + 1..]))
  }

  lemma {:induction false} UnderSection(start: string, d: Document)
    requires IsLine(start) && d.Valid() && StartsWith(d.start, "m=")
    ensures Under(start, d).Valid() && Under(start, d).Print() == start + ("\n" + d.Print())
  {
    var ls, ss := [d.start] + d.session, [[d.start] + d.session] + d.sections;
    assert ls[1..] == d.session;
    assert ss[1..] == d.sections;
    forall i | 1 <= i < |ls| ensures !StartsWith(ls[i], "m=") { assert ls[i] == d.session[i - 1]; }
    PrintFirst(ls, PrintSections(d.sections));
    assert PrintSections(ss) == "\n" + d.Print();
    assert PrintLines([]) + PrintSections(ss) == PrintSections(ss);
  }

  lemma {:induction false} UnderLine(start: string, d: Document)
    requires IsLine(start) && d.Valid() && !StartsWith(d.start, "m=")
    ensures Under(start, d).Valid() && Under(start, d).Print() == start + ("\n" + d.Print())
  {
    var ls := [d.start] + d.session;
    assert ls[1..] == d.session;
    assert PrintLines(ls) + PrintSections(d.sections) == "\n" + d.Print();
  }

  lemma {:induction false} UnderPrints(start: string, d: Document)
    requires IsLine(start) && d.Valid()
    ensures Under(start, d).Valid() && Under(start, d).Print() == start + ("\n" + d.Print())
  {
    if StartsWith(d.start, "m=") { UnderSection(start, d); } else { UnderLine(start, d); }
  }

  lemma {:induction false} CutAtFeed(s: string, n: nat)
    requires n < |s| && s[n] == '\n'
    ensures s == s[..n] + ("\n" + s[n + 1..])
  {
  }

  lemma {:induction false} OneLine(l: string)
    requires IsLine(l)
    ensures Document(l, [], []).Valid() && Document(l, [], []).Print() == l
  {
  }

  /** Every text is a valid SDP in this sense, so what is proved of documents holds of texts. */
  lemma {:induction false} AnyText(s: string)
    ensures Parse(s).Valid() && Parse(s).Print() == s
  {
    var start := UpToFeed(s);
    if |start| == |s| {
      OneLine(s);
    } else {
      var rest := s[|start| + 1..];
      AnyText(rest);
      UnderPrints(start, Parse(rest));
      CutAtFeed(s, |start|);
    }
  }

  lemma {:induction false} SectionsFollow(ss: seq<seq<string>>)
    requires AreSections(ss)
    ensures Follows(PrintSections(ss))
  {
    if ss != [] {
      assert IsSection(ss[0]);
    }
  }

  lemma {:induction false} PrefixFirst(s: string, p: string)
    requires s != "" && p != ""
    ensures StartsWith(s, p) ==> s[0] == p[0]
  {
    if StartsWith(s, p) { assert s[..|p|][0] == p[0]; }
  }

  lemma {:induction false} PrefixConcat(a: string, b: string, p: string)
    requires |p| <= |a|
    ensures StartsWith(a + b, p) <==> StartsWith(a, p)
  {
    assert (a + b)[..|p|] == a[..|p|];
  }

  lemma {:induction false} PrefixOfLine(l: string, r: string, p: string)
    requires IsLine(p) && Follows(r)
    ensures StartsWith(l + r, p) <==> StartsWith(l, p)
  {
    if |p| <= |l| {
      PrefixConcat(l, r, p);
    } else if |p| <= |l + r| {
      assert (l + r)[..|p|][|l|] == '\n';
    }
  }

  lemma {:induction false} BeforeConcat(a: string, b: string)
    ensures Before(a + b, Some(b)) == a
    ensures b == "" ==> a + b == a
  {
  }

  /** A text that does not hold the first character of what is looked for is passed over. */
  lemma {:induction false} FindPast(l: string, r: string, p: string)
    requires p != "" && p[0] !in l
    ensures FindText(l + r, p) == FindText(r, p)
  {
    if l == "" {
      assert l + r == r;
    } else {
      PrefixFirst(l + r, p);
      assert (l + r)[1..] == l[1..] + r;
      FindPast(l[1..], r, p);
    }
  }

  /** Inside a line no other line starts. */
  lemma {:induction false} FindPastLine(l: string, r: string, p: string)
    requires IsLine(l) && p != "" && p[0] == '\n'
    ensures FindText(l + r, p) == FindText(r, p)
  {
    FindPast(l, r, p);
  }

  /** Where a line starts, the search finds it exactly when it has the prefix. */
  lemma {:induction false} StartsAtLine(l: string, r: string, k: string)
    requires IsLine(l) && IsLine(k) && Follows(r)
    ensures StartsWith("\n" + (l + r), "\n" + k) <==> StartsWith(l, k)
  {
    var s, p := "\n" + (l + r), "\n" + k;
    if |k| <= |l| {
      assert s[..|p|][1..] == l[..|k|] && p[1..] == k;
      assert s[..|p|] == "\n" + l[..|k|];
    } else if |p| <= |s| {
      assert s[..|p|][|l| + 1] == '\n';
      assert p[|l| + 1] == k[|l|];
    }
  }

  lemma {:induction false} FindPastLines(ls: seq<string>, r: string, k: string)
    requires AreLines(ls) && IsLine(k) && Follows(r)
    requires forall i :: 0 <= i < |ls| ==> !StartsWith(ls[i], k)
    ensures FindText(PrintLines(ls) + r, "\n" + k) == FindText(r, "\n" + k)
  {
    if ls == [] {
      assert PrintLines(ls) + r == r;
    } else {
      var more := PrintLines(ls[1..]) + r;
      assert PrintLines(ls) + r == "\n" + (ls[0] + more);
      StartsAtLine(ls[0], more, k);
      assert ("\n" + (ls[0] + more))[1..] == ls[0] + more;
      FindPastLine(ls[0], more, "\n" + k);
      FindPastLines(ls[1..], r, k);
    }
  }

  predicate OfKind(ls: seq<string>, k: string) {
    ls != [] && StartsWith(ls[0], k)
  }

  /** The sections of a kind. */
  function OfKinds(ss: seq<seq<string>>, k: string): (r: seq<seq<string>>)
    ensures forall i :: 0 <= i < |r| ==> OfKind(r[i], k)
  {
    if ss == [] then []
    else if OfKind(ss[0], k) then [ss[0]] + OfKinds(ss[1..], k) else OfKinds(ss[1..], k)
  }

  /** The sections from the first of a kind on. */
  function FromKind(ss: seq<seq<string>>, k: string): (r: seq<seq<string>>)
    ensures |r| <= |ss|
    ensures AreSections(ss) ==> AreSections(r)
    ensures r != [] ==> OfKind(r[0], k)
    ensures OfKinds(r, k) == OfKinds(ss, k)
  {
    if ss == [] || OfKind(ss[0], k) then ss else FromKind(ss[1..], k)
  }

  predicate IsKind(k: string) {
    IsLine(k) && StartsWith(k, "m=")
  }

  lemma {:induction false} LongerPrefix(l: string, k: string, m: string)
    requires StartsWith(l, k) && StartsWith(k, m)
    ensures StartsWith(l, m)
  {
    assert l[..|m|] == l[..|k|][..|m|];
  }

  /** A section of another kind is passed over. */
  lemma {:induction false} FindPastSection(ls: seq<string>, r: string, k: string)
    requires IsSection(ls) && IsKind(k) && Follows(r) && !OfKind(ls, k)
    ensures FindText(PrintLines(ls) + r, "\n" + k) == FindText(r, "\n" + k)
  {
    forall i | 0 <= i < |ls| ensures !StartsWith(ls[i], k) {
      if i > 0 && StartsWith(ls[i], k) {
        LongerPrefix(ls[i], k, "m=");
      }
    }
    FindPastLines(ls, r, k);
  }

  lemma {:induction false} FindAtSection(ls: seq<string>, r: string, k: string)
    requires IsSection(ls) && IsKind(k) && Follows(r) && OfKind(ls, k)
    ensures FindText(PrintLines(ls) + r, "\n" + k) == Some(PrintLines(ls) + r)
  {
    var more := PrintLines(ls[1..]) + r;
    assert PrintLines(ls) + r == "\n" + (ls[0] + more);
    LinesFollow(ls[1..], r);
    StartsAtLine(ls[0], more, k);
  }

  lemma {:induction false} LinesFollow(ls: seq<string>, r: string)
    requires Follows(r)
    ensures Follows(PrintLines(ls) + r)
  {
    if ls == [] { assert PrintLines(ls) + r == r; }
  }

  /** The search for a kind of media finds its first section. */
  lemma {:induction false} FindSections(ss: seq<seq<string>>, k: string)
    requires AreSections(ss) && IsKind(k)
    ensures var from := FromKind(ss, k);
      FindText(PrintSections(ss), "\n" + k) == if from == [] then None else Some(PrintSections(from))
  {
    if ss == [] {
      assert FindText("", "\n" + k) == None;
    } else {
      var r := PrintSections(ss[1..]);
      assert IsSection(ss[0]);
      SectionsFollow(ss[1..]);
      if OfKind(ss[0], k) {
        FindAtSection(ss[0], r, k);
      } else {
        FindPastSection(ss[0], r, k);
        FindSections(ss[1..], k);
      }
    }
  }

  // The section that a search ends in.

  lemma {:induction false} SectionsStart(ss: seq<seq<string>>)
    requires AreSections(ss)
    ensures FindText(PrintSections(ss), MEDIA) == if ss == [] then None else Some(PrintSections(ss))
  {
    assert MEDIA == "\n" + "m=";
    FindSections(ss, "m=");
    if ss != [] {
      assert OfKind(ss[0], "m=");
    }
  }

  lemma {:induction false} PrintFirst(ls: seq<string>, r: string)
    requires ls != []
    ensures PrintLines(ls) + r == "\n" + (ls[0] + (PrintLines(ls[1..]) + r))
  {
  }

  /** A section ends where the next one starts. */
  lemma {:induction false} CutSection(ls: seq<string>, ss: seq<seq<string>>)
    requires IsSection(ls) && AreSections(ss)
    ensures MediaSection(PrintLines(ls) + PrintSections(ss)) == PrintLines(ls)
  {
    var r := PrintSections(ss);
    var s := PrintLines(ls) + r;
    var more := PrintLines(ls[1..]) + r;
    PrintFirst(ls, r);
    assert s[1..] == ls[0] + more;
    assert MEDIA == "\n" + "m=";
    SectionsFollow(ss);
    FindPastLine(ls[0], more, MEDIA);
    FindPastLines(ls[1..], r, "m=");
    SectionsStart(ss);
    BeforeConcat(PrintLines(ls), r);
  }

  /** The session part ends where the first section starts. */
  lemma {:induction false} CutSession(d: Document)
    requires d.Valid()
    ensures SessionPart(d.Print()) == d.start + PrintLines(d.session)
  {
    var a, r := d.start + PrintLines(d.session), PrintSections(d.sections);
    assert MEDIA == "\n" + "m=";
    assert IsKind("m=");
    FindPastSession(d, "m=");
    SectionsStart(d.sections);
    assert d.Print() == a + r;
    BeforeConcat(a, r);
  }

  // The port of a section.

  /** What follows the kind and one character on the m= line. */
  function PortTail(ls: seq<string>, k: string): string
    requires OfKind(ls, k)
  {
    if |ls[0]| > |k| then ls[0][|k| + 1..] else ""
  }

  /** An m= line with a space after its port. */
  predicate Spaced(ls: seq<string>, k: string) {
    OfKind(ls, k) && |ls[0]| > |k| && FindText(PortTail(ls, k), " ").Some?
  }

  /** The port of an m= line: the number up to a space, or up to the end of the line. */
  function LinePort(ls: seq<string>, k: string, number: string -> int): int
    requires OfKind(ls, k)
  {
    number(Before(PortTail(ls, k), FindText(PortTail(ls, k), " ")))
  }

  /** A search that ends inside a text ends there whatever follows it. */
  lemma {:induction false} FindInside(a: string, b: string, p: string)
    requires FindText(a, p).Some?
    ensures FindText(a + b, p) == Some(FindText(a, p).value + b)
    ensures Before(a + b, FindText(a + b, p)) == Before(a, FindText(a, p))
  {
    var r := FindText(a, p).value;
    FindStays(a, b, p);
    assert (a + b)[..|a + b| - |r + b|] == a[..|a| - |r|];
  }

  lemma {:induction false} FindStays(a: string, b: string, p: string)
    requires FindText(a, p).Some?
    ensures FindText(a + b, p) == Some(FindText(a, p).value + b)
  {
    FoundFits(a, p);
    PrefixConcat(a, b, p);
    if !StartsWith(a, p) {
      assert (a + b)[1..] == a[1..] + b;
      FindStays(a[1..], b, p);
    }
  }

  lemma {:induction false} FoundFits(a: string, p: string)
    requires FindText(a, p).Some?
    ensures |p| <= |a|
  {
    if !StartsWith(a, p) { FoundFits(a[1..], p); }
  }

  // The text after a port, by lines: it starts in a line and goes on with lines and sections.

  lemma {:induction false} SectionParts(ls: seq<string>)
    requires IsSection(ls)
    ensures IsLine(ls[0]) && IsSession(ls[1..])
  {
  }

  /** What comes after the next line feed. */
  function NextLine(ls: seq<string>, ss: seq<seq<string>>): (r: Option<Document>)
    requires IsSession(ls) && AreSections(ss)
    ensures r.Some? ==> r.value.Valid()
    ensures r.Some? ==> |r.value.sections| < |ss| || (r.value.sections == ss && |r.value.session| < |ls|)
  {
    if ls != [] then Some(Document(ls[0], ls[1..], ss))
    else if ss != [] then SectionParts(ss[0]); Some(Document(ss[0][0], ss[0][1..], ss[1..]))
    else None
  }

  lemma {:induction false} NextLineText(ls: seq<string>, ss: seq<seq<string>>)
    requires IsSession(ls) && AreSections(ss)
    ensures var n := NextLine(ls, ss);
      PrintLines(ls) + PrintSections(ss) == if n.None? then "" else "\n" + n.value.Print()
  {
    if ls != [] {
      PrintFirst(ls, PrintSections(ss));
    } else if ss != [] {
      assert IsSection(ss[0]);
      PrintFirst(ss[0], PrintSections(ss[1..]));
      assert PrintLines(ls) + PrintSections(ss) == PrintSections(ss);
    }
  }

  /** What comes from the first space on. */
  function FromSpace(d: Document): (r: Option<Document>)
    requires d.Valid()
    ensures r.Some? ==> IsSession(r.value.session) && AreSections(r.value.sections)
    decreases |d.sections|, |d.session|
  {
    var u := FindText(d.start, " ");
    if u.Some? then Some(Document(u.value, d.session, d.sections))
    else
      var n := NextLine(d.session, d.sections);
      if n.None? then None else FromSpace(n.value)
  }

  function TextOf(d: Option<Document>): Option<string> {
    match d case None => None case Some(e) => Some(e.Print())
  }

  lemma {:induction false} FindSpace(d: Document)
    requires d.Valid()
    ensures FindText(d.Print(), " ") == TextOf(FromSpace(d))
    ensures FromSpace(d).Some? ==> FromSpace(d).value.Valid()
    decreases |d.sections|, |d.session|
  {
    var r := PrintLines(d.session) + PrintSections(d.sections);
    if FindText(d.start, " ").Some? {
      FindInside(d.start, r, " ");
      StartsWhereFound(d.start, " ");
    } else {
      var n := NextLine(d.session, d.sections);
      NextLineText(d.session, d.sections);
      FindInLine(d.start, r, " ");
      if n.Some? {
        assert r[1..] == n.value.Print();
        FindSpace(n.value);
      }
    }
  }

  /** The rest of the line and all that follows are those after the space exactly when the line
      holds it. */
  lemma {:induction false} SpaceInLine(d: Document)
    requires d.Valid() && FromSpace(d).Some?
    ensures var e := FromSpace(d).value;
      (|e.sections| < |d.sections| || (e.sections == d.sections && |e.session| <= |d.session|)) &&
      (e.session == d.session && e.sections == d.sections <==> FindText(d.start, " ").Some?)
    decreases |d.sections|, |d.session|
  {
    if FindText(d.start, " ").None? { SpaceInLine(NextLine(d.session, d.sections).value); }
  }

  /** The text behind the kind and one character: of the m= line, or after it if it is the kind
      only. */
  function Behind(ss: seq<seq<string>>, k: string): (r: Option<Document>)
    requires AreSections(ss) && ss != [] && OfKind(ss[0], k)
    ensures r.Some? ==> r.value.Valid()
  {
    SectionParts(ss[0]);
    if |ss[0][0]| > |k| then Some(Document(PortTail(ss[0], k), ss[0][1..], ss[1..]))
    else NextLine(ss[0][1..], ss[1..])
  }

  /** The text from the first space behind the port on, where a search goes on. */
  function AfterPortOf(ss: seq<seq<string>>, k: string): (r: Option<Document>)
    requires AreSections(ss) && ss != [] && OfKind(ss[0], k)
    ensures r.Some? ==> IsSession(r.value.session) && AreSections(r.value.sections)
  {
    match Behind(ss, k) case None => None case Some(d) => FromSpace(d)
  }

  /** What is read as the port, 0 if no space comes. */
  function PortOf(ss: seq<seq<string>>, k: string, number: string -> int): int
    requires AreSections(ss) && ss != [] && OfKind(ss[0], k)
  {
    if AfterPortOf(ss, k).None? then 0
    else number(Before(Behind(ss, k).value.Print(), TextOf(AfterPortOf(ss, k))))
  }

  lemma {:induction false} BehindText(ss: seq<seq<string>>, k: string)
    requires AreSections(ss) && ss != [] && OfKind(ss[0], k)
    ensures var at, d := PrintSections(ss), Behind(ss, k);
      if d.None? then |at| <= |k| + 2 && (|at| == |k| + 2 ==> at[|k| + 2..] == "")
      else |at| >= |k| + 2 && at[|k| + 2..] == d.value.Print()
  {
    var ls, r := ss[0], PrintSections(ss[1..]);
    SectionParts(ls);
    PrintFirst(ls, r);
    NextLineText(ls[1..], ss[1..]);
    if |ls[0]| == |k| { assert PrintSections(ss)[|k| + 1..] == PrintLines(ls[1..]) + r; }
  }

  /** The media of the first of these sections. */
  function MediaOf(ss: seq<seq<string>>, k: string, number: string -> int): Media
    requires AreSections(ss) && ss != [] && OfKind(ss[0], k)
  {
    Media(PrintLines(ss[0]), PortOf(ss, k, number), TextOf(AfterPortOf(ss, k)))
  }

  /** A section at the start of the text, as the search reads it. */
  lemma {:induction false} ReadSection(ss: seq<seq<string>>, k: string, number: string -> int)
    requires AreSections(ss) && ss != [] && OfKind(ss[0], k)
    ensures MediaAt(Some(PrintSections(ss)), "\n" + k, number) == MediaOf(ss, k, number)
    ensures AfterPortOf(ss, k).Some? ==> AfterPortOf(ss, k).value.Valid()
  {
    CutSection(ss[0], ss[1..]);
    BehindText(ss, k);
    if Behind(ss, k).Some? { FindSpace(Behind(ss, k).value); }
  }

  // The media of a kind, by sections.

  /** The sections from the one that a search finds on. */
  function Found(ss: seq<seq<string>>, k: string, number: string -> int): (r: seq<seq<string>>)
    requires AreSections(ss)
    ensures AreSections(r)
    ensures r != [] ==> OfKind(r[0], k) && PortOf(r, k, number) != 0
  {
    var a := FromKind(ss, k);
    if a == [] then [] else
    if PortOf(a, k, number) != 0 then a else
    var b := FoundNext(a, k);
    if b == [] || PortOf(b, k, number) == 0 then [] else b
  }

  /** The sections that a second search finds. */
  function FoundNext(a: seq<seq<string>>, k: string): (r: seq<seq<string>>)
    requires AreSections(a) && a != [] && OfKind(a[0], k)
    ensures AreSections(r)
    ensures r != [] ==> OfKind(r[0], k)
  {
    match AfterPortOf(a, k) case None => [] case Some(e) => FromKind(e.sections, k)
  }

  lemma {:induction false} ReadFirst(s: string, ss: seq<seq<string>>, k: string, number: string -> int)
    requires AreSections(ss) && IsKind(k)
    requires FindText(s, "\n" + k) == FindText(PrintSections(ss), "\n" + k)
    ensures var a := FromKind(ss, k);
      MediaPort(s, "\n" + k, number) == if a == [] then Media("", 0, None) else MediaOf(a, k, number)
  {
    FindSections(ss, k);
    var a := FromKind(ss, k);
    if a != [] { ReadSection(a, k, number); }
  }

  /** The media that the searches find in any SDP. */
  lemma {:induction false} FindsAny(d: Document, k: string, number: string -> int)
    requires d.Valid() && IsKind(k)
    ensures var media, c := FindMedia(d.Print(), "\n" + k, number), Found(d.sections, k, number);
      if c == [] then media.port == 0 else media == MediaOf(c, k, number)
  {
    FindPastSession(d, k);
    ReadFirst(d.Print(), d.sections, k, number);
    var a := FromKind(d.sections, k);
    if a != [] && PortOf(a, k, number) == 0 && AfterPortOf(a, k).Some? {
      var e := AfterPortOf(a, k).value;
      ReadSection(a, k, number);
      FindPastSession(e, k);
      ReadFirst(e.Print(), e.sections, k, number);
    }
  }

  lemma {:induction false} FindPastSession(d: Document, k: string)
    requires d.Valid() && IsKind(k)
    ensures FindText(d.Print(), "\n" + k) == FindText(PrintSections(d.sections), "\n" + k)
  {
    SectionsFollow(d.sections);
    PastSession(d.start, d.session, PrintSections(d.sections), k);
  }

  lemma {:induction false} PastSession(start: string, session: seq<string>, r: string, k: string)
    requires IsLine(start) && IsSession(session) && IsKind(k) && Follows(r)
    ensures FindText(start + (PrintLines(session) + r), "\n" + k) == FindText(r, "\n" + k)
  {
    FindPastLine(start, PrintLines(session) + r, "\n" + k);
    forall i | 0 <= i < |session| ensures !StartsWith(session[i], k) {
      if StartsWith(session[i], k) { LongerPrefix(session[i], k, "m="); }
    }
    FindPastLines(session, r, k);
  }

  // The section that counts, and when it is the one found.

  /** A reader of numbers that does not read past a line, nor a number in no text. */
  ghost predicate ReadsNumbers(number: string -> int) {
    number("") == 0 && forall l, r :: IsLine(l) && Follows(r) ==> number(l + r) == number(l)
  }

  /** The sections from the one that counts on: the first of the kind, or the second if the
      first has port 0; none if that one has port 0 too. */
  function Chosen(ss: seq<seq<string>>, k: string, number: string -> int): (r: seq<seq<string>>)
    requires AreSections(ss)
    ensures AreSections(r)
    ensures r != [] ==> OfKind(r[0], k) && LinePort(r[0], k, number) != 0
  {
    var a := FromKind(ss, k);
    if a == [] then [] else
    if LinePort(a[0], k, number) != 0 then a else
    var b := FromKind(a[1..], k);
    if b == [] || LinePort(b[0], k, number) == 0 then [] else b
  }

  /** The port of an m= line is read if it is 0 or a space comes after it, in the line or later. A
      line that is the kind only has none, and then none may be read after it. */
  predicate PortIsRead(a: seq<seq<string>>, k: string, number: string -> int)
    requires AreSections(a) && a != [] && OfKind(a[0], k)
  {
    if |a[0][0]| == |k| then PortOf(a, k, number) == 0
    else LinePort(a[0], k, number) == 0 || AfterPortOf(a, k).Some?
  }

  lemma {:induction false} PortIsOwn(a: seq<seq<string>>, k: string, number: string -> int)
    requires AreSections(a) && a != [] && OfKind(a[0], k) && ReadsNumbers(number)
    ensures PortIsRead(a, k, number) <==> PortOf(a, k, number) == LinePort(a[0], k, number)
    ensures !PortIsRead(a, k, number) && |a[0][0]| > |k| ==> PortOf(a, k, number) == 0
  {
    var ls := a[0];
    if |ls[0]| > |k| {
      var d := Behind(a, k).value;
      var r := PrintLines(d.session) + PrintSections(d.sections);
      FindSpace(d);
      if Spaced(ls, k) {
        FindInside(d.start, r, " ");
      } else if AfterPortOf(a, k).Some? {
        PortUpToLine(d, number);
      }
    }
  }

  lemma {:induction false} PortUpToLine(d: Document, number: string -> int)
    requires d.Valid() && ReadsNumbers(number) && FindText(d.start, " ").None? && FindText(d.Print(), " ").Some?
    ensures number(Before(d.Print(), FindText(d.Print(), " "))) == number(d.start)
  {
    var r := PrintLines(d.session) + PrintSections(d.sections);
    SectionsFollow(d.sections);
    LinesFollow(d.session, PrintSections(d.sections));
    FindInLine(d.start, r, " ");
    var u := FindText(r, " ").value;
    assert Before(d.start + r, Some(u)) == d.start + r[..|r| - |u|];
    assert Follows(r[..|r| - |u|]);
  }

  /** The m= lines that are looked at are read as they are written: that of the first of the
      kind, and of the second if the first has port 0, up to which no other is passed over. */
  predicate Fit(ss: seq<seq<string>>, k: string, number: string -> int)
    requires AreSections(ss)
  {
    var a := FromKind(ss, k);
    a == [] || (PortIsRead(a, k, number) && (LinePort(a[0], k, number) != 0 || NextIsRead(a, k, number)))
  }

  predicate NextIsRead(a: seq<seq<string>>, k: string, number: string -> int)
    requires AreSections(a) && a != [] && OfKind(a[0], k)
  {
    var b := FromKind(a[1..], k);
    FoundNext(a, k) == b && (b == [] || PortIsRead(b, k, number))
  }

  /** The media found is that of the section that counts, with the port of its m= line, exactly
      when these lines are so read; if no section counts, then none is found. */
  lemma {:induction false} FindsChosen(d: Document, k: string, number: string -> int)
    requires d.Valid() && IsKind(k) && ReadsNumbers(number)
    ensures var media, c := FindMedia(d.Print(), "\n" + k, number), Found(d.sections, k, number);
      if c == [] then media.port == 0 else media == MediaOf(c, k, number)
    ensures var c := Chosen(d.sections, k, number);
      (Fit(d.sections, k, number) ==> Found(d.sections, k, number) == c) &&
      (c != [] ==>
         (Found(d.sections, k, number) == c <==> Fit(d.sections, k, number)) &&
         (Found(d.sections, k, number) == c ==> PortOf(c, k, number) == LinePort(c[0], k, number)))
  {
    FindsAny(d, k, number);
    FoundIsChosen(d.sections, k, number);
  }

  lemma {:induction false} FoundIsChosen(ss: seq<seq<string>>, k: string, number: string -> int)
    requires AreSections(ss) && ReadsNumbers(number)
    ensures var c := Chosen(ss, k, number);
      (Fit(ss, k, number) ==> Found(ss, k, number) == c) &&
      (c != [] ==>
         (Found(ss, k, number) == c <==> Fit(ss, k, number)) &&
         (Found(ss, k, number) == c ==> PortOf(c, k, number) == LinePort(c[0], k, number)))
  {
    var a := FromKind(ss, k);
    if a != [] {
      PortIsOwn(a, k, number);
      var b := FromKind(a[1..], k);
      if b != [] { PortIsOwn(b, k, number); }
    }
  }

  /** A space in the m= line is enough. */
  lemma {:induction false} SpacedIsRead(a: seq<seq<string>>, k: string, number: string -> int)
    requires AreSections(a) && a != [] && Spaced(a[0], k)
    ensures PortIsRead(a, k, number) && FoundNext(a, k) == FromKind(a[1..], k)
    ensures AfterPortOf(a, k) == Some(Document(FindText(PortTail(a[0], k), " ").value, a[0][1..], a[1..]))
  {
  }

  /** Where the media of a kind goes: the port of the section found, at the address that is read
      of its own lines, or else of the session lines. */
  function RemoteOf(d: Document, k: string, number: string -> int): (string, int)
    requires d.Valid()
  {
    var c := Found(d.sections, k, number);
    if c == [] then ("", 0) else
    var own := Connection(PrintLines(c[0])).0;
    (if own != "" then own else Connection(d.start + PrintLines(d.session)).0, PortOf(c, k, number))
  }

  lemma {:induction false} RemoteIsFound(d: Document, k: string, number: string -> int)
    requires d.Valid() && IsKind(k)
    ensures MediaRemote(d.Print(), "\n" + k, number) == RemoteOf(d, k, number)
  {
    FindsAny(d, k, number);
    CutSession(d);
  }

  // Other sections.

  /** The section that counts, of the sections of a kind. */
  function Pick(ss: seq<seq<string>>, k: string, number: string -> int): Option<seq<string>>
    requires forall i :: 0 <= i < |ss| ==> OfKind(ss[i], k)
  {
    if ss == [] then None
    else if LinePort(ss[0], k, number) != 0 then Some(ss[0])
    else if |ss| == 1 || LinePort(ss[1], k, number) == 0 then None else Some(ss[1])
  }

  lemma {:induction false} ChosenIsPick(ss: seq<seq<string>>, k: string, number: string -> int)
    requires AreSections(ss)
    ensures var c := Chosen(ss, k, number);
      Pick(OfKinds(ss, k), k, number) == if c == [] then None else Some(c[0])
  {
    var a := FromKind(ss, k);
    HeadOfKind(a, k);
    if a != [] {
      HeadOfKind(FromKind(a[1..], k), k);
    }
  }

  lemma {:induction false} HeadOfKind(a: seq<seq<string>>, k: string)
    requires a != [] ==> OfKind(a[0], k)
    ensures OfKinds(a, k) == if a == [] then [] else [a[0]] + OfKinds(a[1..], k)
  {
  }

  /** Where the media of a kind goes does not depend on any section but the one that counts:
      sections of other kinds, and others of its kind, may change, come and go. */
  lemma {:induction false} RemoteIgnoresOthers(d: Document, e: Document, k: string, number: string -> int)
    requires d.Valid() && e.Valid() && IsKind(k) && ReadsNumbers(number)
    requires Fit(d.sections, k, number) && Fit(e.sections, k, number)
    requires d.start == e.start && d.session == e.session
    requires Pick(OfKinds(d.sections, k), k, number) == Pick(OfKinds(e.sections, k), k, number)
    ensures MediaRemote(d.Print(), "\n" + k, number) == MediaRemote(e.Print(), "\n" + k, number)
  {
    RemoteIsFound(d, k, number);
    RemoteIsFound(e, k, number);
    FoundIsChosen(d.sections, k, number);
    FoundIsChosen(e.sections, k, number);
    ChosenIsPick(d.sections, k, number);
    ChosenIsPick(e.sections, k, number);
  }

  // The line an address comes from.

  /** Lines, the first without a line feed before it. */
  function PartText(ls: seq<string>): string
    requires ls != []
  {
    ls[0] + PrintLines(ls[1..])
  }

  /** The lines from the first that holds `p` on. */
  function FromHolder(ls: seq<string>, p: string): seq<string> {
    if ls == [] || FindText(ls[0], p).Some? then ls else FromHolder(ls[1..], p)
  }

  /** A text without line feeds is found inside a line or after it. */
  lemma {:induction false} FindInLine(l: string, r: string, p: string)
    requires IsLine(p) && p != "" && Follows(r)
    ensures FindText(l, p).None? ==> FindText(l + r, p) == FindText(r, p)
  {
    if l == "" {
      assert l + r == r;
    } else if FindText(l, p).None? {
      assert (l + r)[1..] == l[1..] + r;
      FindInLine(l[1..], r, p);
      PrefixOfLine(l, r, p);
    }
  }

  /** A text without line feeds is not found at one. */
  lemma {:induction false} FindPastFeed(ls: seq<string>, p: string)
    requires ls != [] && IsLine(p) && p != ""
    ensures FindText(PrintLines(ls), p) == FindText(PartText(ls), p)
  {
    PrefixFirst(PrintLines(ls), p);
    assert PrintLines(ls)[1..] == PartText(ls);
  }

  lemma {:induction false} FindHolder(ls: seq<string>, p: string)
    requires ls != [] && AreLines(ls) && IsLine(p) && p != ""
    ensures var f := FromHolder(ls, p);
      if f == [] then FindText(PartText(ls), p).None?
      else FindText(f[0], p).Some? &&
           FindText(PartText(ls), p) == Some(FindText(f[0], p).value + PrintLines(f[1..]))
  {
    var l, more := ls[0], ls[1..];
    if FindText(l, p).Some? {
      FindInside(l, PrintLines(more), p);
    } else {
      LinesFollow(more, "");
      assert PrintLines(more) + "" == PrintLines(more);
      FindInLine(l, PrintLines(more), p);
      if more != [] {
        FindPastFeed(more, p);
        FindHolder(more, p);
      }
    }
  }

  /** A field ends at the end of its line, if a line follows. */
  lemma {:induction false} FieldInLine(l: string, r: string)
    requires IsLine(l) && Follows(r)
    ensures Field(l + r) == if r == "" then Field(l) else UpToField(l)
  {
    if r == "" { assert l + r == l; } else { UpToFieldInLine(l, r); }
  }

  lemma {:induction false} UpToFieldInLine(l: string, r: string)
    requires r != "" && r[0] == '\n'
    ensures UpToField(l + r) == UpToField(l)
  {
    if l == "" {
      assert l + r == r;
    } else {
      assert (l + r)[1..] == l[1..] + r;
      UpToFieldInLine(l[1..], r);
    }
  }

  /** What a line gives of a field, found anywhere in it; `last` is that no line follows. */
  function FieldOf(l: string, p: string, last: bool): string {
    match FindText(l, p)
    case None => ""
    case Some(r) => var value := r[Least(|p|, |r|)..]; if last then Field(value) else UpToField(value)
  }

  /** `find_in_sdp` reads the first line that holds the pattern, wherever it does. It is the
      first line that starts with the pattern exactly when no earlier line holds it inside. */
  lemma {:induction false} ReadsFirstHolder(ls: seq<string>, p: string)
    requires ls != [] && AreLines(ls) && IsLine(p) && p != ""
    ensures var f := FromHolder(ls, p);
      FindInSdp(p, PartText(ls)) == FindInSdp(p, PrintLines(ls)) == if f == [] then "" else FieldOf(f[0], p, |f| == 1)
    ensures var f, g := FromHolder(ls, p), FromLine(ls, p);
      f == g <==> f == [] || StartsWith(f[0], p)
  {
    var f := FromHolder(ls, p);
    FindHolder(ls, p);
    FindPastFeed(ls, p);
    HolderLines(ls, p);
    if f != [] {
      var u, r := FindText(f[0], p).value, PrintLines(f[1..]);
      StartsWhereFound(f[0], p);
      assert (u + r)[|p|..] == u[|p|..] + r;
      LinesFollow(f[1..], "");
      assert r + "" == r;
      FieldInLine(u[|p|..], r);
    }
  }

  lemma {:induction false} StartsWhereFound(l: string, p: string)
    requires FindText(l, p).Some?
    ensures |p| <= |FindText(l, p).value|
    ensures IsLine(l) ==> IsLine(FindText(l, p).value)
  {
    if !StartsWith(l, p) { StartsWhereFound(l[1..], p); }
  }

  /** The lines from the first that starts with `k` on. */
  function FromLine(ls: seq<string>, k: string): seq<string> {
    if ls == [] || StartsWith(ls[0], k) then ls else FromLine(ls[1..], k)
  }

  lemma {:induction false} HolderLines(ls: seq<string>, p: string)
    requires AreLines(ls)
    ensures var f := FromHolder(ls, p);
      AreLines(f) && (f != [] ==> FindText(f[0], p).Some?) &&
      (FromLine(ls, p) == f <==> f == [] || StartsWith(f[0], p))
  {
    LineIsHolder(ls, p);
    if ls != [] && FindText(ls[0], p).None? { HolderLines(ls[1..], p); }
  }

  lemma {:induction false} LineIsHolder(ls: seq<string>, p: string)
    ensures var g := FromLine(ls, p);
      (g != [] ==> StartsWith(g[0], p) && FindText(g[0], p).Some?) &&
      |g| <= |FromHolder(ls, p)|
  {
    if ls != [] && !StartsWith(ls[0], p) {
      LineIsHolder(ls[1..], p);
      HolderShorter(ls[1..], p);
    }
  }

  lemma {:induction false} HolderShorter(ls: seq<string>, p: string)
    ensures |FromHolder(ls, p)| <= |ls|
  {
    if ls != [] && FindText(ls[0], p).None? { HolderShorter(ls[1..], p); }
  }

  // What a value is, by its characters.

  /** What a search finds is the first place in the text that starts with the pattern. */
  lemma {:induction false} FindsFirst(s: string, p: string)
    ensures match FindText(s, p)
      case None => forall i :: 0 <= i <= |s| ==> !StartsWith(s[i..], p)
      case Some(r) => |r| <= |s| && r == s[|s| - |r|..] && |p| <= |r| && r[..|p|] == p &&
                      forall i :: 0 <= i < |s| - |r| ==> !StartsWith(s[i..], p)
  {
    if StartsWith(s, p) {
      assert s[0..] == s;
    } else if s != "" {
      FindsFirst(s[1..], p);
      assert forall i :: 1 <= i <= |s| ==> s[i..] == s[1..][i - 1..];
      assert s[0..] == s;
    } else {
      assert s[0..] == s;
    }
  }

  /** The characters that no value holds. */
  predicate Bare(v: string) {
    ' ' !in v && '/' !in v && '\r' !in v && '\n' !in v
  }

  lemma {:induction false} UpToBare(v: string, e: char, r: string)
    requires Bare(v) && (e == ' ' || e == '/' || e == '\r' || e == '\n')
    ensures UpToField(v + ([e] + r)) == v
  {
    var s := v + ([e] + r);
    if v != "" {
      assert s[1..] == v[1..] + ([e] + r);
      UpToBare(v[1..], e, r);
    }
  }

  lemma {:induction false} FieldIsBare(s: string)
    ensures Bare(UpToField(s))
  {
    if s != "" && !EndsField(s[0]) { FieldIsBare(s[1..]); }
  }

  /** The value is what comes after the first pattern up to a space, a slash or an end of line; it
      never holds one of these. */
  lemma {:induction false} ReadsUpTo(part: string, p: string, v: string, e: char, r: string)
    requires FindText(part, p) == Some(p + (v + ([e] + r)))
    requires Bare(v) && (e == ' ' || e == '/' || e == '\r' || e == '\n')
    ensures FindInSdp(p, part) == v
  {
    var t := v + ([e] + r);
    assert (p + t)[|p|..] == t;
    UpToBare(v, e, r);
  }

  lemma {:induction false} ReadsBare(part: string, p: string)
    ensures Bare(FindInSdp(p, part))
  {
    match FindText(part, p)
    case None =>
    case Some(r) => FieldIsBare(r[Least(|p|, |r|)..]);
  }

  /** If nothing ends it, there is none. */
  lemma {:induction false} ReadsNothing(part: string, p: string, v: string)
    requires FindText(part, p) == Some(p + v) && Bare(v)
    ensures FindInSdp(p, part) == ""
  {
    assert (p + v)[|p|..] == v;
    UpToAll(v);
  }

  lemma {:induction false} UpToAll(v: string)
    requires Bare(v)
    ensures UpToField(v) == v
  {
    if v != "" { UpToAll(v[1..]); }
  }

  // The address of the c= line.

  const IP4 := "c=IN IP4 "
  const IP6 := "c=IN IP6 "

  /** The value of the first line that starts with `p`. */
  function ValueIn(ls: seq<string>, p: string): string {
    var g := FromLine(ls, p);
    if g == [] || |g[0]| < |p| then "" else UpToField(g[0][|p|..])
  }

  /** Something ends the value of that line: a character of the line, or a line after it. */
  predicate Ends(ls: seq<string>, p: string) {
    var g := FromLine(ls, p);
    g == [] || |g| > 1 || |g[0]| < |p| || UpToField(g[0][|p|..]) == "" || |UpToField(g[0][|p|..])| < |g[0]| - |p|
  }

  /** When the first line that holds the pattern is the first that starts with it, its value is
      read exactly when something ends it. */
  lemma {:induction false} ReadsValue(ls: seq<string>, p: string)
    requires ls != [] && AreLines(ls) && IsLine(p) && p != "" && FromHolder(ls, p) == FromLine(ls, p)
    ensures FindInSdp(p, PartText(ls)) == FindInSdp(p, PrintLines(ls))
    ensures FindInSdp(p, PartText(ls)) == ValueIn(ls, p) <==> Ends(ls, p)
  {
    ReadsFirstHolder(ls, p);
    LineIsHolder(ls, p);
  }

  lemma {:induction false} PatternsAreLines()
    ensures IsLine(IP4) && IsLine(IP6)
  {
  }

  /** A line with an address: its pattern, and the lines from it on. */
  datatype Place = Place(pattern: string, lines: seq<string>)

  /** What is read after a pattern, of the first line that holds it. */
  function Given(ls: seq<string>, p: string): string {
    var f := FromHolder(ls, p);
    if f == [] then "" else FieldOf(f[0], p, |f| == 1)
  }

  /** The line that the address of a part is read of. */
  function Taken(ls: seq<string>): Option<Place> {
    if Given(ls, IP4) != "" then Some(Place(IP4, FromHolder(ls, IP4)))
    else if Given(ls, IP6) != "" then Some(Place(IP6, FromHolder(ls, IP6))) else None
  }

  function TakenAddress(t: Option<Place>): string {
    match t case None => "" case Some(Place(p, f)) => if f == [] then "" else FieldOf(f[0], p, |f| == 1)
  }

  /** The lines from the first c= line on, of either family of addresses. */
  function FromC(ls: seq<string>): seq<string> {
    if ls == [] || StartsWith(ls[0], IP4) || StartsWith(ls[0], IP6) then ls else FromC(ls[1..])
  }

  /** The c= line of a part: its first, if that has an address. */
  function Meant(ls: seq<string>): Option<Place> {
    var g := FromC(ls);
    if g == [] then None else
    var p := if StartsWith(g[0], IP4) then IP4 else IP6;
    if LineValue(g[0], p) == "" then None else Some(Place(p, g))
  }

  function LineValue(l: string, p: string): string {
    if |l| < |p| then "" else UpToField(l[|p|..])
  }

  function MeantAddress(t: Option<Place>): string {
    match t case None => "" case Some(Place(p, g)) => if g == [] then "" else LineValue(g[0], p)
  }

  /** The address of a part is read of its c= line: no earlier line holds the pattern inside,
      something ends the address and, if it is an IPv6 one, no IPv4 one is read. Without such a
      line nothing is read. */
  predicate Clear(ls: seq<string>) {
    match Meant(ls)
    case None => Given(ls, IP4) == "" && Given(ls, IP6) == ""
    case Some(Place(p, g)) =>
      FromHolder(ls, p) == g && g != [] && (|g| > 1 || |LineValue(g[0], p)| < |g[0]| - |p|) &&
      (p == IP6 ==> Given(ls, IP4) == "")
  }

  lemma {:induction false} CLineStarts(ls: seq<string>)
    ensures var g := FromC(ls); g != [] ==> StartsWith(g[0], IP4) || StartsWith(g[0], IP6)
  {
    if ls != [] && !StartsWith(ls[0], IP4) && !StartsWith(ls[0], IP6) { CLineStarts(ls[1..]); }
  }

  /** The line that the address is read of is the c= line exactly when the part is clear. */
  lemma {:induction false} ReadsAddress(ls: seq<string>)
    requires ls != [] && AreLines(ls)
    ensures Connection(PartText(ls)).0 == Connection(PrintLines(ls)).0 == TakenAddress(Taken(ls))
    ensures Taken(ls).Some? <==> TakenAddress(Taken(ls)) != ""
    ensures Taken(ls) == Meant(ls) <==> Clear(ls)
    ensures Clear(ls) ==> TakenAddress(Taken(ls)) == MeantAddress(Meant(ls))
  {
    PatternsAreLines();
    ReadsFirstHolder(ls, IP4);
    ReadsFirstHolder(ls, IP6);
    CLineStarts(ls);
    if Meant(ls).Some? { FieldOfStart(Meant(ls).value.lines, Meant(ls).value.pattern); }
  }

  /** What is read of a line that starts with the pattern is its value, if something ends it. */
  lemma {:induction false} FieldOfStart(g: seq<string>, p: string)
    requires g != [] && StartsWith(g[0], p)
    ensures FieldOf(g[0], p, |g| == 1) ==
            if |g| > 1 || |LineValue(g[0], p)| < |g[0]| - |p| then LineValue(g[0], p) else ""
  {
    assert FindText(g[0], p) == Some(g[0]);
  }

  /** Where an address comes from. */
  datatype Origin = Nowhere | Own(at: Place) | OfSession(at: Place)

  /** A section's own line comes before those of the session. */
  function OriginOf(own: Option<Place>, session: Option<Place>): Origin {
    if own.Some? then Own(own.value) else if session.Some? then OfSession(session.value) else Nowhere
  }

  function MeantOf(o: Origin): string {
    if o == Nowhere then "" else MeantAddress(Some(o.at))
  }

  function TakenOf(o: Origin): string {
    if o == Nowhere then "" else TakenAddress(Some(o.at))
  }

  /** The address of a media is read of the first c= line of its own section, or otherwise of the
      first c= line of the session, exactly when its section is clear and, without such a line
      there, the session is. */
  lemma {:induction false} RemoteIsOfCLine(d: Document, k: string, number: string -> int)
    requires d.Valid() && IsKind(k)
    ensures var c, part := Found(d.sections, k, number), [d.start] + d.session;
      var remote := MediaRemote(d.Print(), "\n" + k, number);
      if c == [] then remote == ("", 0)
      else
        var read, meant := OriginOf(Taken(c[0]), Taken(part)), OriginOf(Meant(c[0]), Meant(part));
        remote == (TakenOf(read), PortOf(c, k, number)) &&
        (read == meant <==> Clear(c[0]) && (Meant(c[0]).Some? || Clear(part))) &&
        (read == meant ==> remote.0 == MeantOf(meant))
  {
    RemoteIsFound(d, k, number);
    var c, part := Found(d.sections, k, number), [d.start] + d.session;
    if c != [] {
      assert IsSection(c[0]);
      assert part[1..] == d.session;
      ReadsOrigin(c[0], part);
    }
  }

  lemma {:induction false} ReadsOrigin(ls: seq<string>, part: seq<string>)
    requires ls != [] && AreLines(ls) && part != [] && AreLines(part)
    ensures var read, meant := OriginOf(Taken(ls), Taken(part)), OriginOf(Meant(ls), Meant(part));
      var own := Connection(PrintLines(ls)).0;
      (if own != "" then own else Connection(PartText(part)).0) == TakenOf(read) &&
      (read == meant <==> Clear(ls) && (Meant(ls).Some? || Clear(part))) &&
      (read == meant ==> TakenOf(read) == MeantOf(meant))
  {
    ReadsAddress(ls);
    ReadsAddress(part);
    SameOrigin(Taken(ls), Taken(part), Meant(ls), Meant(part));
  }

  lemma {:induction false} SameOrigin(a: Option<Place>, b: Option<Place>, x: Option<Place>, y: Option<Place>)
    ensures OriginOf(a, b) == OriginOf(x, y) <==> a == x && (a.Some? || b == y)
  {
  }

  /** A value: text without the characters that end one. */
  predicate IsValue(v: string) {
    v != "" && Bare(v)
  }

  lemma {:induction false} WholeValue(v: string)
    requires IsValue(v)
    ensures UpToField(v) == v && IsLine(v)
  {
    UpToAll(v);
  }

  /** Where it fails: the address is read from an attribute before the c= line that holds the
      pattern, such as a line "a=c=IN IP4 6" (`x` is "a="). */
  lemma {:induction false} ReadsAttribute(m: string, x: string, p: string, v: string, w: string)
    requires IsLine(m) && IsLine(x) && IsLine(p) && p != "" && p[0] !in m && p[0] !in x && x != ""
    requires IsValue(v) && IsValue(w)
    ensures var ls := [m, x + (p + v), p + w, ""];
      FindInSdp(p, PrintLines(ls)) == v && ValueIn(ls, p) == w
  {
    var l := x + (p + v);
    var ls := [m, l, p + w, ""];
    WholeValue(v);
    WholeValue(w);
    FindPast(m, "", p);
    assert m + "" == m;
    FindPast(x, p + v, p);
    assert StartsWith(p + v, p) && (p + v)[|p|..] == v;
    ReadsFirstHolder(ls, p);
    assert ls[1..] == [l, p + w, ""];
    ThirdValue(m, l, p, w);
  }

  lemma {:induction false} ThirdValue(m: string, l: string, p: string, w: string)
    requires p != "" && p[0] !in m && l != "" && l[0] != p[0] && IsValue(w)
    ensures ValueIn([m, l, p + w, ""], p) == w
  {
    var ls := [m, l, p + w, ""];
    WholeValue(w);
    NotFirst(m, p);
    NotFirst(l, p);
    assert StartsWith(p + w, p) && (p + w)[|p|..] == w;
    var a, b := [l, p + w, ""], [p + w, ""];
    assert ls[1..] == a && a[1..] == b;
    assert FromLine(b, p) == b;
    assert FromLine(a, p) == b;
    assert FromLine(ls, p) == b;
  }

  /** The lines of a media whose c= line comes after such an attribute. */
  function Misread(): seq<string> {
    ["m=audio 8 A", "a=" + (IP4 + "6"), IP4 + "1", ""]
  }

  lemma {:induction false} MisreadIsSection()
    ensures IsSection(Misread())
  {
    PatternsAreLines();
    NotFirst(Misread()[1], "m=");
    NotFirst(Misread()[2], "m=");
  }

  /** What is read of such lines, and what is meant. */
  lemma {:induction false} ReadsOther(m: string, x: string, v: string, w: string)
    requires IsLine(m) && IsLine(x) && m != "" && x != "" && 'c' !in m && 'c' !in x && IsValue(v) && IsValue(w)
    ensures var ls := [m, x + (IP4 + v), IP4 + w, ""];
      Connection(PrintLines(ls)).0 == v && MeantAddress(Meant(ls)) == w
  {
    PatternsAreLines();
    ReadsAttribute(m, x, IP4, v, w);
    MeantThird(m, x + (IP4 + v), w);
  }

  lemma {:induction false} MeantThird(m: string, l: string, w: string)
    requires m != "" && m[0] != 'c' && l != "" && l[0] != 'c' && IsValue(w)
    ensures MeantAddress(Meant([m, l, IP4 + w, ""])) == w
  {
    var b := [IP4 + w, ""];
    assert [m, l, IP4 + w, ""][1..] == [l] + b && ([l] + b)[1..] == b;
    NotC(m);
    NotC(l);
    WholeValue(w);
    assert StartsWith(IP4 + w, IP4) && (IP4 + w)[|IP4|..] == w;
    assert FromC(b) == b;
    assert FromC([l] + b) == b;
  }

  lemma {:induction false} NotC(l: string)
    requires l != "" && l[0] != 'c'
    ensures !StartsWith(l, IP4) && !StartsWith(l, IP6)
  {
    NotFirst(l, IP4);
    NotFirst(l, IP6);
  }

  /** An SDP with one media. */
  lemma {:induction false} OneMedia(start: string, ls: seq<string>, k: string, number: string -> int)
    requires IsLine(start) && IsSection(ls) && IsKind(k) && ReadsNumbers(number)
    requires Spaced(ls, k) && LinePort(ls, k, number) != 0 && Connection(PrintLines(ls)).0 != ""
    ensures var d := Document(start, [], [ls]);
      d.Valid() &&
      MediaRemote(d.Print(), "\n" + k, number) == (Connection(PrintLines(ls)).0, LinePort(ls, k, number))
  {
    var d := Document(start, [], [ls]);
    SpacedIsRead(d.sections, k, number);
    PortIsOwn(d.sections, k, number);
    RemoteIsFound(d, k, number);
  }

  lemma {:induction false} PortEight(ls: seq<string>, number: string -> int)
    requires ls != [] && ls[0] == "m=audio 8 A"
    ensures IsKind("m=audio") && Spaced(ls, "m=audio") && LinePort(ls, "m=audio", number) == number("8")
  {
    assert PortTail(ls, "m=audio") == "8 A" == "8" + " A" && StartsWith(" A", " ");
    FindPast("8", " A", " ");
    BeforeConcat("8", " A");
  }

  /** So in a whole SDP the address of "c=IN IP4 1" is read as 6 after "a=c=IN IP4 6". */
  lemma {:induction false} MisreadAddress(number: string -> int)
    requires ReadsNumbers(number) && number("8") == 8
    ensures var d := Document("v=0", [], [Misread()]);
      d.Valid() && MediaRemote(d.Print(), "\n" + "m=audio", number) == ("6", 8)
    ensures MeantAddress(Meant(Misread())) == "1"
  {
    MisreadIsSection();
    ReadsOther("m=audio 8 A", "a=", "6", "1");
    PortEight(Misread(), number);
    OneMedia("v=0", Misread(), "m=audio", number);
  }

  lemma {:induction false} NotFirst(l: string, p: string)
    requires p != "" && (l == "" || l[0] != p[0])
    ensures !StartsWith(l, p)
  {
    if l != "" { PrefixFirst(l, p); }
  }

  /** And a c= line that is the last of its section is not read if its address is not ended in
      the line, as a carriage return would. */
  lemma {:induction false} ReadsNoLastLine(m: string, p: string, w: string)
    requires IsLine(m) && IsLine(p) && p != "" && p[0] !in m && IsValue(w)
    ensures var ls := [m, p + w];
      FindInSdp(p, PrintLines(ls)) == "" && ValueIn(ls, p) == w
  {
    var ls := [m, p + w];
    WholeValue(w);
    FindPast(m, "", p);
    assert m + "" == m;
    assert StartsWith(p + w, p) && (p + w)[|p|..] == w;
    ReadsFirstHolder(ls, p);
    assert ls[1..] == [p + w];
    NotFirst(m, p);
  }

  // The crypto lines of a media.

  const CRYPTO_LINE := "a=crypto:"

  /** The crypto lines among some lines, each with the line feed before it. */
  function CryptoIn(ls: seq<string>): seq<string> {
    if ls == [] then []
    else if StartsWith(ls[0], CRYPTO_LINE) then ["\n" + ls[0]] + CryptoIn(ls[1..]) else CryptoIn(ls[1..])
  }

  /** The lines that a line feed ends: all, or all but the last if nothing follows them. */
  function Ended(ls: seq<string>, followed: bool): seq<string> {
    if followed || ls == [] then ls else ls[..|ls| - 1]
  }

  function FirstOf(ls: seq<string>, most: nat): seq<string> {
    if most < |ls| then ls[..most] else ls
  }

  lemma {:induction false} FindLine(ls: seq<string>, r: string, k: string)
    requires AreLines(ls) && IsLine(k) && Follows(r)
    ensures var g := FromLine(ls, k);
      AreLines(g) &&
      FindText(PrintLines(ls) + r, "\n" + k) == if g == [] then FindText(r, "\n" + k) else Some(PrintLines(g) + r)
  {
    if ls == [] {
      assert PrintLines(ls) + r == r;
    } else {
      var more := PrintLines(ls[1..]) + r;
      assert PrintLines(ls) + r == "\n" + (ls[0] + more);
      LinesFollow(ls[1..], r);
      StartsAtLine(ls[0], more, k);
      if !StartsWith(ls[0], k) {
        assert ("\n" + (ls[0] + more))[1..] == ls[0] + more;
        FindPastLine(ls[0], more, "\n" + k);
        FindLine(ls[1..], r, k);
      }
    }
  }

  /** A line is cut at the next line feed. */
  lemma {:induction false} CutLine(l: string, more: string)
    requires IsLine(l) && Follows(more)
    ensures LineAt("\n" + (l + more)) == if more == "" then None else Some(("\n" + l, more))
  {
    var s := "\n" + (l + more);
    assert s[1..] == l + more;
    FindPastLine(l, more, "\n");
    if more != "" {
      assert FindText(more, "\n") == Some(more) by { assert more[..1] == "\n"; }
      assert s == ("\n" + l) + more;
    }
  }

  lemma {:induction false} CryptoEnded(ls: seq<string>, followed: bool)
    ensures var g, all := FromLine(ls, CRYPTO_LINE), CryptoIn(Ended(ls, followed));
      all == if g == [] || (|g| == 1 && !followed) then []
             else ["\n" + g[0]] + CryptoIn(Ended(g[1..], followed))
  {
    if ls != [] && (followed || |ls| > 1) {
      var e := Ended(ls, followed);
      assert e[1..] == Ended(ls[1..], followed);
      if !StartsWith(ls[0], CRYPTO_LINE) { CryptoEnded(ls[1..], followed); }
    }
  }

  function Limit(ss: seq<seq<string>>): Option<string> {
    if ss == [] then None else Some(PrintSections(ss))
  }

  /** A crypto line is found before the limit exactly when the section has one. */
  lemma {:induction false} FoundInSection(ls: seq<string>, ss: seq<seq<string>>)
    requires AreLines(ls) && AreSections(ss)
    ensures var r, g := PrintSections(ss), FromLine(ls, CRYPTO_LINE);
      var found := FindText(PrintLines(ls) + r, CRYPTO);
      AreLines(g) && (InSection(found, Limit(ss)) <==> g != []) &&
      (g != [] ==> found == Some("\n" + (g[0] + (PrintLines(g[1..]) + r))))
  {
    var r, g := PrintSections(ss), FromLine(ls, CRYPTO_LINE);
    assert CRYPTO == "\n" + CRYPTO_LINE;
    SectionsFollow(ss);
    FindLine(ls, r, CRYPTO_LINE);
    if g != [] { PrintFirst(g, r); }
  }

  /** One line is read, and the reading goes on after it. */
  lemma {:induction false} CryptoStep(s: string, limit: Option<string>, most: nat, l: string, more: string)
    requires most > 0 && IsLine(l) && Follows(more)
    requires FindText(s, CRYPTO) == Some("\n" + (l + more)) && InSection(FindText(s, CRYPTO), limit)
    ensures CryptoFrom(s, limit, most) == if more == "" then [] else ["\n" + l] + CryptoFrom(more, limit, most - 1)
  {
    CutLine(l, more);
  }

  /** The crypto lines read from the lines of a section are its own, the first ones. */
  lemma {:induction false} CryptoOfLines(ls: seq<string>, ss: seq<seq<string>>, most: nat)
    requires AreLines(ls) && AreSections(ss)
    ensures CryptoFrom(PrintLines(ls) + PrintSections(ss), Limit(ss), most) ==
            FirstOf(CryptoIn(Ended(ls, ss != [])), most)
    decreases most
  {
    FoundInSection(ls, ss);
    CryptoEnded(ls, ss != []);
    var g := FromLine(ls, CRYPTO_LINE);
    if most > 0 && g != [] {
      CryptoOfFound(PrintLines(ls) + PrintSections(ss), g, ss, most);
      if |g| > 1 || ss != [] {
        CryptoOfLines(g[1..], ss, most - 1);
        FirstOfMore("\n" + g[0], CryptoIn(Ended(g[1..], ss != [])), most);
      }
    }
  }

  lemma {:induction false} CryptoOfFound(s: string, g: seq<string>, ss: seq<seq<string>>, most: nat)
    requires most > 0 && g != [] && AreLines(g) && AreSections(ss)
    requires FindText(s, CRYPTO) == Some("\n" + (g[0] + (PrintLines(g[1..]) + PrintSections(ss))))
    requires InSection(FindText(s, CRYPTO), Limit(ss))
    ensures CryptoFrom(s, Limit(ss), most) ==
            if |g| == 1 && ss == [] then []
            else ["\n" + g[0]] + CryptoFrom(PrintLines(g[1..]) + PrintSections(ss), Limit(ss), most - 1)
  {
    SectionsFollow(ss);
    LinesFollow(g[1..], PrintSections(ss));
    NothingLeft(g[1..], ss);
    CryptoStep(s, Limit(ss), most, g[0], PrintLines(g[1..]) + PrintSections(ss));
  }

  lemma {:induction false} FirstOfMore(l: string, more: seq<string>, most: nat)
    requires most > 0
    ensures FirstOf([l] + more, most) == [l] + FirstOf(more, most - 1)
  {
  }

  lemma {:induction false} NothingLeft(ls: seq<string>, ss: seq<seq<string>>)
    requires AreSections(ss)
    ensures PrintLines(ls) + PrintSections(ss) == "" <==> ls == [] && ss == []
  {
    if ss != [] { assert IsSection(ss[0]); }
  }

  /** The crypto lines read for a kind of media are the first two after the first space behind its
      port; the very last line of an SDP that does not end with a line feed is not read. The lines
      after that space are the section's own exactly when its m= line has the space. */
  lemma {:induction false} CryptoIsFounds(d: Document, k: string, number: string -> int)
    requires d.Valid() && IsKind(k)
    ensures var c := Found(d.sections, k, number);
      if c == [] then CryptoLines(d.Print(), "\n" + k, number) == []
      else
        var e := AfterPortOf(c, k);
        e.Some? &&
        CryptoLines(d.Print(), "\n" + k, number) ==
        FirstOf(CryptoIn(Ended(e.value.session, e.value.sections != [])), 2) &&
        (e.value.session == c[0][1..] && e.value.sections == c[1..] <==> Spaced(c[0], k))
  {
    FindsAny(d, k, number);
    var c := Found(d.sections, k, number);
    if c != [] {
      var e := AfterPortOf(c, k).value;
      ReadSection(c, k, number);
      assert MEDIA == "\n" + "m=";
      FindPastSession(e, "m=");
      SectionsStart(e.sections);
      CryptoPastLine(e.start, PrintLines(e.session) + PrintSections(e.sections), Limit(e.sections), 2);
      CryptoOfLines(e.session, e.sections, 2);
      OwnLines(c, k);
    }
  }

  lemma {:induction false} OwnLines(c: seq<seq<string>>, k: string)
    requires AreSections(c) && c != [] && OfKind(c[0], k) && AfterPortOf(c, k).Some?
    ensures var e := AfterPortOf(c, k).value;
      e.session == c[0][1..] && e.sections == c[1..] <==> Spaced(c[0], k)
  {
    SpaceInLine(Behind(c, k).value);
  }

  /** So the crypto lines of the section that counts are read, if it is found and its m= line has
      a space after its port. */
  lemma {:induction false} CryptoIsChosens(d: Document, k: string, number: string -> int)
    requires d.Valid() && IsKind(k) && ReadsNumbers(number) && Fit(d.sections, k, number)
    ensures var c := Chosen(d.sections, k, number);
      c == [] || Spaced(c[0], k) ==>
        CryptoLines(d.Print(), "\n" + k, number) ==
        if c == [] then [] else FirstOf(CryptoIn(Ended(c[0][1..], |c| > 1)), 2)
  {
    CryptoIsFounds(d, k, number);
    FoundIsChosen(d.sections, k, number);
  }

  lemma {:induction false} CryptoPastLine(l: string, r: string, limit: Option<string>, most: nat)
    requires IsLine(l)
    ensures CryptoFrom(l + r, limit, most) == CryptoFrom(r, limit, most)
  {
    FindPastLine(l, r, CRYPTO);
  }

  /** The crypto lines of a media do not depend on any section but the one that counts, except
      that one without a line feed at its end must be followed by a section, or not be, alike. */
  lemma {:induction false} CryptoIgnoresOthers(d: Document, e: Document, k: string, number: string -> int)
    requires d.Valid() && e.Valid() && IsKind(k) && ReadsNumbers(number)
    requires Fit(d.sections, k, number) && Fit(e.sections, k, number)
    requires var c := Chosen(d.sections, k, number); c == [] || Spaced(c[0], k)
    requires Pick(OfKinds(d.sections, k), k, number) == Pick(OfKinds(e.sections, k), k, number)
    requires |Chosen(d.sections, k, number)| > 1 <==> |Chosen(e.sections, k, number)| > 1
    ensures CryptoLines(d.Print(), "\n" + k, number) == CryptoLines(e.Print(), "\n" + k, number)
  {
    CryptoIsChosens(d, k, number);
    CryptoIsChosens(e, k, number);
    ChosenIsPick(d.sections, k, number);
    ChosenIsPick(e.sections, k, number);
  }

  // SDPs as they are written, with carriage returns.

  /** The address written on a c= line, up to a space, a slash or the end of the line, is the one
      meant. */
  lemma {:induction false} MeantIsWritten(g: seq<string>, p: string, v: string, rest: string)
    requires g != [] && g[0] == p + (v + rest) && Bare(v)
    requires rest == "" || rest[0] == ' ' || rest[0] == '/' || rest[0] == '\r'
    ensures MeantAddress(Some(Place(p, g))) == v
  {
    assert g[0][|p|..] == v + rest;
    if rest == "" {
      assert v + rest == v;
      UpToAll(v);
    } else {
      assert rest == [rest[0]] + rest[1..];
      UpToBare(v, rest[0], rest[1..]);
    }
  }

  /** The address of a part whose first line without a 'c' is followed by an IPv4 c= line. */
  lemma {:induction false} ReadsSecond(m: string, v: string, e: char, r: string, more: seq<string>)
    requires IsLine(m) && 'c' !in m && IsValue(v) && (e == '/' || e == '\r')
    ensures var l := IP4 + (v + ([e] + r)); Connection(PrintLines([m, l] + more)).0 == v
    ensures var l := IP4 + (v + ([e] + r)); Connection(PartText([m, l] + more)).0 == v
  {
    var l := IP4 + (v + ([e] + r));
    var ls := [m, l] + more;
    var rest := r + PrintLines(more);
    assert ls[1..] == [l] + more && ([l] + more)[1..] == more;
    assert PartText(ls) == m + ("\n" + (l + PrintLines(more)));
    assert l + PrintLines(more) == IP4 + (v + ([e] + rest));
    var head := m + "\n";
    assert PartText(ls) == head + (IP4 + (v + ([e] + rest)));
    FindPast(head, IP4 + (v + ([e] + rest)), IP4);
    assert StartsWith(IP4 + (v + ([e] + rest)), IP4);
    ReadsUpTo(PartText(ls), IP4, v, e, rest);
    var feed := "\n" + head;
    assert PrintLines(ls) == feed + (IP4 + (v + ([e] + rest)));
    FindPast(feed, IP4 + (v + ([e] + rest)), IP4);
    ReadsUpTo(PrintLines(ls), IP4, v, e, rest);
  }

  /** The address of a media that has none of its own. */
  lemma {:induction false} ReadsNoC(m: string)
    requires 'c' !in m
    ensures Connection(PrintLines([m, ""])).0 == ""
  {
    var t := "\n" + m + "\n";
    assert PrintLines([""]) == "\n" && [m, ""][1..] == [""];
    assert PrintLines([m, ""]) == t + "";
    FindPast(t, "", IP4);
    FindPast(t, "", IP6);
  }

  /** An SDP with an address for the session, and one with a TTL for its first media. */
  function Written(start: string, w: string, m: string, v: string, ttl: string, n: string): Document {
    Document(start, ["c=IN IP4 " + (w + "\r")], [[m, "c=IN IP4 " + (v + ("/" + (ttl + "\r")))], [n, ""]])
  }

  lemma {:induction false} WrittenIsValid(start: string, w: string, m: string, v: string, ttl: string, n: string)
    requires IsLine(start) && IsLine(m) && IsLine(n) && StartsWith(m, "m=") && StartsWith(n, "m=")
    requires IsValue(w) && IsValue(v) && IsValue(ttl)
    ensures Written(start, w, m, v, ttl, n).Valid()
  {
    PatternsAreLines();
    NotFirst(IP4 + (w + "\r"), "m=");
    NotFirst(IP4 + (v + ("/" + (ttl + "\r"))), "m=");
    NotFirst("", "m=");
  }

  /** Its first media goes to its own address, without the TTL. */
  lemma {:induction false} WrittenFirst(start: string, w: string, m: string, v: string, ttl: string, n: string,
                                        k: string, number: string -> int)
    requires IsLine(m) && 'c' !in m && IsValue(v) && IsKind(k) && ReadsNumbers(number)
    requires Written(start, w, m, v, ttl, n).Valid()
    requires Spaced([m], k) && LinePort([m], k, number) != 0
    ensures MediaRemote(Written(start, w, m, v, ttl, n).Print(), "\n" + k, number) == (v, LinePort([m], k, number))
  {
    var d := Written(start, w, m, v, ttl, n);
    ReadsSecond(m, v, '/', ttl + "\r", []);
    assert [m, IP4 + (v + (['/'] + (ttl + "\r")))] + [] == d.sections[0];
    FoundFirst(d.sections, k, number);
    RemoteIsFound(d, k, number);
  }

  /** The other goes to that of the session, without the carriage return. */
  lemma {:induction false} WrittenSecond(start: string, w: string, m: string, v: string, ttl: string, n: string,
                                         k: string, number: string -> int)
    requires IsLine(start) && 'c' !in start && 'c' !in n && IsValue(w) && IsKind(k) && ReadsNumbers(number)
    requires Written(start, w, m, v, ttl, n).Valid()
    requires !StartsWith(m, k) && Spaced([n], k) && LinePort([n], k, number) != 0
    ensures MediaRemote(Written(start, w, m, v, ttl, n).Print(), "\n" + k, number) == (w, LinePort([n], k, number))
  {
    var d := Written(start, w, m, v, ttl, n);
    ReadsSecond(start, w, '\r', "", []);
    SessionText(start, w);
    ReadsNoC(n);
    assert d.sections[1..] == [[n, ""]];
    FoundFirst([[n, ""]], k, number);
    RemoteIsFound(d, k, number);
  }

  lemma {:induction false} SessionText(start: string, w: string)
    ensures PartText([start, IP4 + (w + (['\r'] + ""))] + []) == start + PrintLines([IP4 + (w + "\r")])
  {
    var l := IP4 + (w + "\r");
    assert IP4 + (w + (['\r'] + "")) == l;
    assert ([start, l] + [])[1..] == [l];
  }

  /** An SDP with two media: a multicast audio, and a video to the address of the session. */
  lemma {:induction false} WrittenRemotes(start: string, w: string, m: string, v: string, ttl: string, n: string,
                                          number: string -> int)
    requires start == "v=0\r" && w == "10.47.16.5" && v == "224.2.17.12" && ttl == "127"
    requires m == ("m=audio" + " ") + ("49170" + " RTP/AVP 0\r")
    requires n == ("m=video" + " ") + ("51372" + " RTP/AVP 99\r")
    requires ReadsNumbers(number) && number("49170") == 49170 && number("51372") == 51372
    ensures var d := Written(start, w, m, v, ttl, n);
      MediaRemote(d.Print(), "\n" + "m=audio", number) == (v, 49170) &&
      MediaRemote(d.Print(), "\n" + "m=video", number) == (w, 51372)
  {
    WrittenTexts(start, w, v, ttl);
    MediaTexts();
    WrittenMedia(m, "m=audio", "49170", " RTP/AVP 0\r", number);
    WrittenMedia(n, "m=video", "51372", " RTP/AVP 99\r", number);
    AudioIsNoVideo(m);
    WrittenIsValid(start, w, m, v, ttl, n);
    WrittenFirst(start, w, m, v, ttl, n, "m=audio", number);
    WrittenSecond(start, w, m, v, ttl, n, "m=video", number);
  }

  lemma {:induction false} WrittenTexts(start: string, w: string, v: string, ttl: string)
    requires start == "v=0\r" && w == "10.47.16.5" && v == "224.2.17.12" && ttl == "127"
    ensures IsLine(start) && 'c' !in start && IsValue(w) && IsValue(v) && IsValue(ttl)
  {
  }

  lemma {:induction false} AudioIsNoVideo(m: string)
    requires StartsWith(m, "m=audio")
    ensures !StartsWith(m, "m=video")
  {
    assert m[..7][2] == 'a';
  }

  predicate HasNoC(s: string) {
    IsLine(s) && 'c' !in s
  }

  lemma {:induction false} WrittenMedia(m: string, k: string, port: string, rest: string, number: string -> int)
    requires m == (k + " ") + (port + rest) && ' ' !in port && rest != "" && rest[0] == ' '
    requires HasNoC(k) && HasNoC(port) && HasNoC(rest) && StartsWith(k, "m=")
    ensures HasNoC(m) && StartsWith(m, "m=") && StartsWith(m, k)
    ensures Spaced([m], k) && LinePort([m], k, number) == number(port)
  {
    assert m == k + (" " + (port + rest));
    MediaLine(m, k, port, rest, number);
    LongerPrefix(m, k, "m=");
  }

  lemma {:induction false} MediaTexts()
    ensures HasNoC("m=audio") && HasNoC("m=video") && IsKind("m=audio") && IsKind("m=video")
    ensures HasNoC("49170") && HasNoC("51372") && HasNoC(" RTP/AVP 0\r") && HasNoC(" RTP/AVP 99\r")
  {
  }

  lemma {:induction false} MediaLine(m: string, k: string, port: string, rest: string, number: string -> int)
    requires m == k + (" " + (port + rest)) && ' ' !in port && rest != "" && rest[0] == ' '
    ensures Spaced([m], k) && LinePort([m], k, number) == number(port)
  {
    assert StartsWith(m, k);
    assert PortTail([m], k) == port + rest;
    FindPast(port, rest, " ");
    assert StartsWith(rest, " ");
    BeforeConcat(port, rest);
  }

  lemma {:induction false} FoundFirst(ss: seq<seq<string>>, k: string, number: string -> int)
    requires AreSections(ss) && ss != [] && Spaced(ss[0], k) && ReadsNumbers(number)
    requires LinePort(ss[0], k, number) != 0
    ensures Found(ss, k, number) == ss && PortOf(ss, k, number) == LinePort(ss[0], k, number)
  {
    SpacedIsRead(ss, k, number);
    PortIsOwn(ss, k, number);
  }

  // An m= line without a space after its port.

  /** Sections of other kinds are passed over. */
  lemma {:induction false} FindPastSections(ss: seq<seq<string>>, r: string, k: string)
    requires AreSections(ss) && IsKind(k) && Follows(r) && FromKind(ss, k) == []
    ensures FindText(PrintSections(ss) + r, "\n" + k) == FindText(r, "\n" + k)
  {
    if ss == [] {
      assert PrintSections(ss) + r == r;
    } else {
      assert IsSection(ss[0]);
      SplitSections(ss, r);
      FollowSections(ss[1..], r);
      FindPastSection(ss[0], PrintSections(ss[1..]) + r, k);
      FindPastSections(ss[1..], r, k);
    }
  }

  lemma {:induction false} SplitSections(ss: seq<seq<string>>, r: string)
    requires ss != []
    ensures PrintSections(ss) + r == PrintLines(ss[0]) + (PrintSections(ss[1..]) + r)
  {
  }

  lemma {:induction false} FollowSections(ss: seq<seq<string>>, r: string)
    requires AreSections(ss) && Follows(r)
    ensures Follows(PrintSections(ss) + r)
  {
    SectionsFollow(ss);
    if PrintSections(ss) == "" { assert PrintSections(ss) + r == r; }
  }

  /** The start of an SDP up to its first m= line of a kind. */
  function Head(start: string, session: seq<string>, before: seq<seq<string>>, rest: string): string {
    start + (PrintLines(session) + (PrintSections(before) + rest))
  }

  /** The crypto lines are looked for from the first space after the kind on, which may be one
      of a later section if the m= line has none. */
  lemma {:induction false} ReadsFromSpace(start: string, session: seq<string>, before: seq<seq<string>>, k: string,
                                          c: char, p: string, rest: string, number: string -> int)
    requires IsLine(start) && IsSession(session) && AreSections(before) && IsKind(k) && FromKind(before, k) == []
    requires ' ' !in p && rest != "" && rest[0] == ' ' && number(p) != 0
    ensures CryptoLines(Head(start, session, before, ("\n" + k) + ([c] + (p + rest))), "\n" + k, number) ==
            CryptoFrom(rest, FindText(rest, MEDIA), 2)
  {
    var at := ("\n" + k) + ([c] + (p + rest));
    FindPastSections(before, at, k);
    FollowSections(before, at);
    PastSession(start, session, PrintSections(before) + at, k);
    MediaFromSpace(Head(start, session, before, at), "\n" + k, c, p, rest, number);
  }

  lemma {:induction false} MediaFromSpace(s: string, prefix: string, c: char, p: string, rest: string,
                                          number: string -> int)
    requires FindText(s, prefix) == FindText(prefix + ([c] + (p + rest)), prefix)
    requires ' ' !in p && rest != "" && rest[0] == ' ' && number(p) != 0
    ensures FindMedia(s, prefix, number).port == number(p) && FindMedia(s, prefix, number).rest == Some(rest)
  {
    var at := prefix + ([c] + (p + rest));
    PrefixConcat(prefix, [c] + (p + rest), prefix);
    assert StartsWith(prefix, prefix);
    assert at[|prefix| + 1..] == p + rest;
    FindPast(p, rest, " ");
    assert StartsWith(rest, " ");
    BeforeConcat(p, rest);
  }

  lemma {:induction false} SpaceInNext(m: string, n: string, k: string)
    requires IsLine(m) && IsLine(n) && StartsWith(m, "m=") && StartsWith(n, "m=")
    requires StartsWith(m, k) && |m| > |k| && ' ' !in m[|k| + 1..] && FindText(n, " ").Some?
    ensures AfterPortOf([[m], [n]], k) == Some(Document(FindText(n, " ").value, [], []))
  {
    var l := m[|k| + 1..];
    FindPast(l, "", " ");
    assert l + "" == l;
    var d, e := Document(l, [], [[n]]), Document(n, [], []);
    assert [[m], [n]][1..] == [[n]] && [m][1..] == [] && [n][1..] == [];
    assert Behind([[m], [n]], k) == Some(d);
    assert NextLine([], [[n]]) == Some(e);
    assert FromSpace(e) == Some(Document(FindText(n, " ").value, [], []));
  }

  /** After an m= line with port 0 and no space, the second of the kind is passed over, up to its
      own space. */
  lemma {:induction false} UnspacedSkips(start: string, m: string, n: string, k: string, number: string -> int)
    requires IsLine(start) && IsLine(m) && IsLine(n) && IsKind(k) && ReadsNumbers(number)
    requires StartsWith(m, k) && |m| > |k| && ' ' !in m[|k| + 1..] && number(m[|k| + 1..]) == 0
    requires StartsWith(n, k) && FindText(n, " ").Some? && LinePort([n], k, number) != 0
    ensures var d := Document(start, [], [[m], [n]]);
      d.Valid() && Chosen(d.sections, k, number) == [[n]] && MediaRemote(d.Print(), "\n" + k, number) == ("", 0)
  {
    var ss := [[m], [n]];
    LongerPrefix(m, k, "m=");
    LongerPrefix(n, k, "m=");
    assert AreSections(ss) && ss[1..] == [[n]];
    SpaceInNext(m, n, k);
    assert FromKind(ss, k) == ss && FromKind(ss[1..], k) == ss[1..];
    PortIsOwn(ss, k, number);
    RemoteIsFound(Document(start, [], ss), k, number);
  }

  lemma {:induction false} AudioLines(m: string, n: string)
    requires m == "m=audio 0" && n == "m=audio 8 A"
    ensures IsLine(m) && IsLine(n) && m[8..] == "0" && FindText(n, " ").Some?
    ensures StartsWith(m, "m=audio") && StartsWith(n, "m=audio")
  {
    assert n == "m=audio" + " 8 A" && StartsWith(" 8 A", " ");
    FindPast("m=audio", " 8 A", " ");
  }

  /** So "m=audio 0" hides the "m=audio 8 A" after it. */
  lemma {:induction false} UnspacedHides(number: string -> int)
    requires ReadsNumbers(number) && number("0") == 0 && number("8") == 8
    ensures var d := Document("v=0", [], [["m=audio 0"], ["m=audio 8 A"]]);
      d.Valid() && Chosen(d.sections, "m=audio", number) == [["m=audio 8 A"]] &&
      MediaRemote(d.Print(), "\n" + "m=audio", number) == ("", 0)
  {
    var m, n := "m=audio 0", "m=audio 8 A";
    PortEight([n], number);
    AudioLines(m, n);
    UnspacedSkips("v=0", m, n, "m=audio", number);
  }

  /** So with "m=audio 9" and no space in `p`, which may hold line feeds and a whole m=video
      line up to its port, the crypto lines `ls` of the video are read for the audio. */
  lemma {:induction false} UnspacedReadsOn(start: string, session: seq<string>, before: seq<seq<string>>, k: string,
                                           c: char, p: string, u: string, ls: seq<string>, ss: seq<seq<string>>,
                                           number: string -> int)
    requires IsLine(start) && IsSession(session) && AreSections(before) && IsKind(k) && FromKind(before, k) == []
    requires ' ' !in p && number(p) != 0
    requires IsLine(u) && u != "" && u[0] == ' ' && IsSession(ls) && AreSections(ss)
    ensures var rest := u + (PrintLines(ls) + PrintSections(ss));
      CryptoLines(Head(start, session, before, ("\n" + k) + ([c] + (p + rest))), "\n" + k, number) ==
      FirstOf(CryptoIn(Ended(ls, ss != [])), 2)
  {
    var more := PrintLines(ls) + PrintSections(ss);
    ReadsFromSpace(start, session, before, k, c, p, u + more, number);
    assert MEDIA == "\n" + "m=";
    FindPastLine(u, more, MEDIA);
    SectionsFollow(ss);
    FindPastLines(ls, PrintSections(ss), "m=");
    SectionsStart(ss);
    CryptoPastLine(u, more, Limit(ss), 2);
    CryptoOfLines(ls, ss, 2);
  }
}
