/** The choice of an SRTP key by offer and answer (section 5.1 of RFC 4568), as both ends
    of a call of src/call.cpp make it, each with its own state. */
module Srtp {
  import opened Text

  datatype Cipher = NullCipher | Aes128 | Aes192 | Aes256
  datatype Hash = Sha1_80 | Sha1_32

  /** The suites that SIPp knows. */
  function Suites(): seq<(string, Cipher, Hash)> {
    [("AES_CM_128_HMAC_SHA1_80", Aes128, Sha1_80), ("AES_CM_128_HMAC_SHA1_32", Aes128, Sha1_32),
     ("NULL_HMAC_SHA1_80", NullCipher, Sha1_80), ("NULL_HMAC_SHA1_32", NullCipher, Sha1_32),
     ("AES_192_CM_HMAC_SHA1_80", Aes192, Sha1_80), ("AES_192_CM_HMAC_SHA1_32", Aes192, Sha1_32),
     ("AES_256_CM_HMAC_SHA1_80", Aes256, Sha1_80), ("AES_256_CM_HMAC_SHA1_32", Aes256, Sha1_32)]
  }

  /** A suite of the table. */
  type SuiteIndex = i: nat | i < 8

  function Name(i: SuiteIndex): (name: string)
    ensures name != ""
  {
    Suites()[i].0
  }

  /** What a line of a suite encrypts with: UNENCRYPTED_SRTP does not. */
  function CipherOf(i: SuiteIndex, unencrypted: bool): Cipher {
    if unencrypted then NullCipher else Suites()[i].1
  }

  function HashOf(i: SuiteIndex): Hash { Suites()[i].2 }

  /** One of the two a=crypto lines that a context holds. */
  datatype Slot = Slot(tag: nat, offered: string, cipher: Cipher, hash: Hash, key: string)
  {
    /** `getCryptoSuite`: as the line named it, or else by what the slot encrypts with. */
    function Suite(): string {
      if offered != "" then offered
      else (match cipher
            case Aes128 => "AES_CM_128"
            case Aes192 => "AES_192_CM"
            case Aes256 => "AES_256_CM"
            case NullCipher => "NULL")
           + "_HMAC_SHA1_" + (if hash == Sha1_80 then "80" else "32")
    }

    predicate Is(suite: string) {
      tag != 0 && Suite() == suite
    }
  }

  datatype Which = Primary | Secondary | Invalid

  /** The line of the tag if that is of the suite, else the first of the suite, if any. */
  function FindLine(primary: Slot, secondary: Slot, tag: nat, suite: string): Which {
    if primary.Is(suite) && primary.tag == tag then Primary
    else if secondary.Is(suite) && secondary.tag == tag then Secondary
    else if primary.Is(suite) then Primary
    else if secondary.Is(suite) then Secondary
    else Invalid
  }

  /** Of two lines of the suite the tag chooses, and otherwise the suite does. */
  lemma {:induction false} TagChooses(primary: Slot, secondary: Slot, tag: nat, suite: string)
    ensures var which := FindLine(primary, secondary, tag, suite);
      (primary.Is(suite) && secondary.Is(suite) && primary.tag != secondary.tag ==>
         (which == Secondary <==> tag == secondary.tag) && (which == Primary <==> tag != secondary.tag)) &&
      (primary.Is(suite) && !secondary.Is(suite) ==> which == Primary) &&
      (!primary.Is(suite) && secondary.Is(suite) ==> which == Secondary) &&
      (!primary.Is(suite) && !secondary.Is(suite) ==> which == Invalid)
  {
  }

  /** A slot that no line named is called by what it encrypts with: each suite by its name. */
  lemma {:induction false} SuiteByCipher(i: SuiteIndex, tag: nat, key: string)
    ensures Slot(tag, "", CipherOf(i, false), HashOf(i), key).Suite() == Name(i)
  {
    match i {
      case 0 => assert Name(0) == "AES_CM_128" + "_HMAC_SHA1_" + "80";
      case 1 => assert Name(1) == "AES_CM_128" + "_HMAC_SHA1_" + "32";
      case 2 => assert Name(2) == "NULL" + "_HMAC_SHA1_" + "80";
      case 3 => assert Name(3) == "NULL" + "_HMAC_SHA1_" + "32";
      case 4 => assert Name(4) == "AES_192_CM" + "_HMAC_SHA1_" + "80";
      case 5 => assert Name(5) == "AES_192_CM" + "_HMAC_SHA1_" + "32";
      case 6 => assert Name(6) == "AES_256_CM" + "_HMAC_SHA1_" + "80";
      case 7 => assert Name(7) == "AES_256_CM" + "_HMAC_SHA1_" + "32";
    }
  }

  /** A cryptographic context (JLSRTP): what a media is sent, or received, with. */
  class Context {
    var primary: Slot
    var secondary: Slot

    constructor (primary: Slot, secondary: Slot)
      ensures this.primary == primary && this.secondary == secondary
    {
      this.primary, this.secondary := primary, secondary;
    }

    /** `find_crypto_line`. */
    function Find(tag: nat, suite: string): Which
      reads this
    {
      FindLine(primary, secondary, tag, suite)
    }

    /** `swapCrypto`. */
    method Swap()
      modifies this
      ensures primary == old(secondary) && secondary == old(primary)
    {
      primary, secondary := secondary, primary;
    }
  }

  datatype State = NoSession | OfferReceived | OfferSent | Completed

  /** A line to write: its suite, a key made for it, and the suite of its UNENCRYPTED_SRTP
      keyword if it has one: the keywords are one for each suite. */
  datatype Line = Line(suite: SuiteIndex, key: string, unencrypted: Option<SuiteIndex>)
  {
    /** The suite that the end that writes the line keeps: that of the last keyword. */
    function Kept(): SuiteIndex {
      if unencrypted.Some? then unencrypted.value else suite
    }

    /** The keyword is of the line's suite. */
    predicate Matched() {
      Name(Kept()) == Name(suite) && HashOf(Kept()) == HashOf(suite)
    }
  }

  /** A line as the SDP has it. */
  datatype Crypto = Crypto(tag: nat, suite: SuiteIndex, key: string, unencrypted: bool)

  function Written(line: Line, tag: nat): Crypto {
    Crypto(tag, line.suite, line.key, line.unencrypted.Some?)
  }

  /** The slot of a line at the end that wrote it. */
  function SlotOf(line: Line, tag: nat): Slot {
    Slot(tag, Name(line.Kept()), CipherOf(line.Kept(), line.unencrypted.Some?), HashOf(line.Kept()), line.key)
  }

  /** The slot of a line at the end that took it, if its key was decoded. */
  function Taken(slot: Slot, c: Crypto, decoded: bool): Slot {
    if decoded then Slot(c.tag, Name(c.suite), CipherOf(c.suite, c.unencrypted), HashOf(c.suite), c.key)
    else slot.(tag := 0, offered := "")
  }

  /** One end of a call, for one media. */
  class End {
    const tx: Context
    const rx: Context
    var state: State

    constructor (tx: Context, rx: Context, state: State)
      ensures this.tx == tx && this.rx == rx && this.state == state
    {
      this.tx, this.rx, this.state := tx, rx, state;
    }

    /** The keywords of the first line: tag, suite, key, and UNENCRYPTED_SRTP if it has one,
        which is of a suite of its own. The suite of an answer may swap the offered lines to
        receive with. */
    method WritePrimary(line: Line) returns (c: Crypto)
      requires tx != rx
      modifies tx, rx
      ensures c == Written(line, 1)
      ensures tx.primary.(offered := "") == SlotOf(line, 1).(offered := "")
      ensures tx.secondary == old(tx.secondary)
      ensures if state == OfferReceived && old(rx.Find(0, Name(line.suite))) == Secondary
              then rx.primary == old(rx.secondary) && rx.secondary == old(rx.primary)
              else rx.primary == old(rx.primary) && rx.secondary == old(rx.secondary)
    {
      tx.primary := tx.primary.(tag := 1);
      tx.primary := tx.primary.(cipher := CipherOf(line.suite, false), hash := HashOf(line.suite));
      if state == OfferReceived && rx.Find(0, Name(line.suite)) == Secondary {
        rx.Swap();
      }
      tx.primary := tx.primary.(key := line.key);
      if line.unencrypted.Some? {
        tx.primary := tx.primary.(cipher := NullCipher, hash := HashOf(line.unencrypted.value));
      }
      c := Crypto(1, line.suite, line.key, line.unencrypted.Some?);
    }

    method WriteSecondary(line: Line) returns (c: Crypto)
      modifies tx
      ensures c == Written(line, 2)
      ensures tx.secondary.(offered := "") == SlotOf(line, 2).(offered := "") && tx.primary == old(tx.primary)
    {
      tx.secondary := tx.secondary.(tag := 2, cipher := CipherOf(line.suite, false), hash := HashOf(line.suite));
      tx.secondary := tx.secondary.(key := line.key);
      if line.unencrypted.Some? {
        tx.secondary := tx.secondary.(cipher := NullCipher, hash := HashOf(line.unencrypted.value));
      }
      c := Crypto(2, line.suite, line.key, line.unencrypted.Some?);
    }

    /** An SDP of one or two lines: what is written, and `passLocalSrtp`. */
    method SendSdp(first: Line, second: seq<Line>) returns (sdp: seq<Crypto>)
      requires tx != rx && |second| <= 1
      modifies this, tx, rx
      ensures sdp == [Written(first, 1)] + if second == [] then [] else [Written(second[0], 2)]
      ensures tx.primary == SlotOf(first, 1)
      ensures if second == [] then tx.secondary.tag == 0 else tx.secondary == SlotOf(second[0], 2)
      ensures state == match old(state)
                       case NoSession => OfferSent
                       case Completed => OfferSent
                       case OfferReceived => Completed
                       case OfferSent => OfferSent
      ensures if old(state) == OfferReceived && old(rx.Find(0, Name(first.suite))) == Secondary
              then rx.primary == old(rx.secondary) && rx.secondary == old(rx.primary)
              else rx.primary == old(rx.primary) && rx.secondary == old(rx.secondary)
    {
      var c := WritePrimary(first);
      sdp := [c];
      if second != [] {
        var d := WriteSecondary(second[0]);
        sdp := sdp + [d];
      }
      tx.primary := tx.primary.(tag := 1, offered := Name(first.Kept()));
      tx.secondary := if second == [] then tx.secondary.(tag := 0, offered := "")
                      else tx.secondary.(tag := 2, offered := Name(second[0].Kept()));
      if state == NoSession || state == Completed {
        state := OfferSent;
      } else if state == OfferReceived {
        state := Completed;
      }
    }

    /** `take_answered_crypto`. */
    method TakeAnswered(answer: Crypto)
      modifies tx
      ensures var which := old(tx.Find(answer.tag, Name(answer.suite)));
        match which
        case Primary => tx.primary == old(tx.primary) && tx.secondary == old(tx.secondary)
        case Secondary => tx.primary == old(tx.secondary) && tx.secondary == old(tx.primary)
        case Invalid => tx.primary.tag == 0 && tx.secondary.tag == 0
    {
      var which := tx.Find(answer.tag, Name(answer.suite));
      if which == Secondary {
        tx.Swap();
      } else if which == Invalid {
        tx.primary := tx.primary.(tag := 0);
        tx.secondary := tx.secondary.(tag := 0);
      }
    }

    /** `takeRemoteSrtp`, of an SDP that comes, and its effect on the session. */
    method ReceiveSdp(sdp: seq<Crypto>, decoded: seq<bool>)
      requires tx != rx && 1 <= |sdp| <= 2 && |decoded| == |sdp| && sdp[0].tag != 0
      modifies this, tx, rx
      ensures state == match old(state)
                       case NoSession => OfferReceived
                       case Completed => OfferReceived
                       case OfferSent => Completed
                       case OfferReceived => OfferReceived
      ensures rx.primary == Taken(old(rx.primary), sdp[0], decoded[0])
      ensures if |sdp| == 1 then rx.secondary.tag == 0 && rx.secondary.offered == ""
              else rx.secondary == Taken(old(rx.secondary), sdp[1], decoded[1])
      ensures old(state) != OfferSent ==> tx.primary == old(tx.primary) && tx.secondary == old(tx.secondary)
      ensures old(state) == OfferSent ==>
        match old(tx.Find(sdp[0].tag, Name(sdp[0].suite)))
        case Primary => tx.primary == old(tx.primary) && tx.secondary == old(tx.secondary)
        case Secondary => tx.primary == old(tx.secondary) && tx.secondary == old(tx.primary)
        case Invalid => tx.primary.tag == 0 && tx.secondary.tag == 0
    {
      var answer := state == OfferSent;
      if state == NoSession || state == Completed {
        state := OfferReceived;
      } else if answer {
        state := Completed;
      }
      if answer {
        TakeAnswered(sdp[0]);
      }
      rx.primary := Taken(rx.primary, sdp[0], decoded[0]);
      rx.secondary := if |sdp| == 2 then Taken(rx.secondary, sdp[1], decoded[1])
                      else rx.secondary.(tag := 0, offered := "");
    }
  }

  /** What one end sends with is what the other receives with. */
  predicate Agree(sends: Slot, receives: Slot) {
    sends.tag != 0 && receives.tag != 0 && sends.Suite() == receives.Suite() &&
    sends.cipher == receives.cipher && sends.hash == receives.hash && sends.key == receives.key
  }

  /** The first line of an offer that its writer keeps with that suite, or how many lines there
      are if none is. */
  function FirstOf(offer: seq<Line>, suite: string): (i: nat)
    ensures i <= |offer| && (i < |offer| ==> Name(offer[i].Kept()) == suite)
    ensures forall j :: 0 <= j < i ==> Name(offer[j].Kept()) != suite
  {
    if offer == [] || Name(offer[0].Kept()) == suite then 0 else 1 + FirstOf(offer[1..], suite)
  }

  /** Whether the two ends of an offer agree on the line that an answer of a suite takes: its
      keyword is of its suite and its key was decoded, and no line before it that the answerer
      took is of the suite for the answerer only. */
  predicate Settled(offer: seq<Line>, suite: string, decoded: seq<bool>)
    requires |decoded| == |offer|
  {
    var i := FirstOf(offer, suite);
    i < |offer| && offer[i].Matched() && decoded[i] &&
    forall j :: 0 <= j < i ==> !(decoded[j] && Name(offer[j].suite) == suite)
  }

  /** The slot that the offerer of one line, or two, sends with, and the one that the answerer
      receives with. */
  lemma {:induction false} OneAgrees(first: Line, suite: string, decoded: bool, r: Slot, s: Slot, q: Slot)
    requires s.tag == 0 && q.tag == 0
    ensures var p, t := SlotOf(first, 1), Taken(r, Written(first, 1), decoded);
      (FindLine(p, s, 1, suite) == Primary <==> Name(first.Kept()) == suite) && FindLine(p, s, 1, suite) != Secondary &&
      FindLine(t, q, 0, suite) != Secondary &&
      (Name(first.Kept()) == suite ==> (Agree(p, t) <==> Settled([first], suite, [decoded])))
  {
    assert FirstOf([first], suite) == if Name(first.Kept()) == suite then 0 else 1;
  }

  lemma {:induction false} TwoAgree(first: Line, second: Line, suite: string, d: bool, e: bool, r: Slot, q: Slot)
    requires first.key != second.key
    ensures var p, s := SlotOf(first, 1), SlotOf(second, 2);
      var t, u := Taken(r, Written(first, 1), d), Taken(q, Written(second, 2), e);
      var taken := FirstOf([first, second], suite);
      var receives := if FindLine(t, u, 0, suite) == Secondary then u else t;
      FindLine(p, s, 1, suite) == (if taken == 0 then Primary else if taken == 1 then Secondary else Invalid) &&
      (taken < 2 ==> (Agree(if taken == 0 then p else s, receives) <==> Settled([first, second], suite, [d, e])))
  {
    assert [first, second][1..] == [second];
    var taken := FirstOf([first, second], suite);
    assert FirstOf([second], suite) == if Name(second.Kept()) == suite then 0 else 1;
  }

  /** Two ends that share nothing. */
  ghost predicate Apart(a: End, b: End) {
    a != b && a.tx != a.rx && b.tx != b.rx && a.tx != b.tx && a.tx != b.rx && a.rx != b.tx && a.rx != b.rx
  }

  /** What the offerer sends with, and what the answerer receives with, once both are done. */
  lemma {:induction false} OfferAgrees(first: Line, second: seq<Line>, suite: string, decoded: seq<bool>,
                                       s: Slot, r: Slot, q: Slot, u: Slot)
    requires |second| <= 1 && |decoded| == 1 + |second| && (second != [] ==> first.key != second[0].key)
    requires if second == [] then s.tag == 0 && u.tag == 0
             else s == SlotOf(second[0], 2) && u == Taken(q, Written(second[0], 2), decoded[1])
    ensures var p, t := SlotOf(first, 1), Taken(r, Written(first, 1), decoded[0]);
      var which := FindLine(p, s, 1, suite);
      var receives := if FindLine(t, u, 0, suite) == Secondary then u else t;
      if FirstOf([first] + second, suite) == |decoded| then which == Invalid
      else which != Invalid &&
           (Agree(if which == Primary then p else s, receives) <==> Settled([first] + second, suite, decoded))
  {
    if second == [] {
      assert [first] + second == [first] && decoded == [decoded[0]];
      OneAgrees(first, suite, decoded[0], r, s, u);
      assert FirstOf([first], suite) == if Name(first.Kept()) == suite then 0 else 1;
    } else {
      assert [first] + second == [first, second[0]] && decoded == [decoded[0], decoded[1]];
      TwoAgree(first, second[0], suite, decoded[0], decoded[1], r, q);
    }
  }

  lemma {:induction false} AnswerAgrees(answer: Line, r: Slot, decoded: bool)
    ensures Agree(SlotOf(answer, 1), Taken(r, Written(answer, 1), decoded)) <==> decoded && answer.Matched()
  {
  }

  /** An offer of one or two lines with keys of their own, and an answer of one line,
      whatever the contexts held before. If the answer's suite was offered, the offerer
      sends with what the answerer receives with exactly when the line taken settles it
      (Settled); the other way round, exactly when the offerer could decode the answer and
      its keyword is of its suite. If it was not offered, the offerer sends nothing
      encrypted. */
  method Negotiate(offerer: End, answerer: End, first: Line, second: seq<Line>, answer: Line,
                   decoded: seq<bool>, answerDecoded: bool)
    requires |second| <= 1 && |decoded| == 1 + |second| && (second != [] ==> first.key != second[0].key)
    requires Apart(offerer, answerer)
    requires offerer.state in {NoSession, Completed} && answerer.state in {NoSession, Completed}
    modifies offerer, answerer, offerer.tx, offerer.rx, answerer.tx, answerer.rx
    ensures offerer.state == answerer.state == Completed
    ensures var suite := Name(answer.suite);
      if FirstOf([first] + second, suite) < |decoded|
      then (Agree(offerer.tx.primary, answerer.rx.primary) <==> Settled([first] + second, suite, decoded))
      else offerer.tx.primary.tag == 0 && offerer.tx.secondary.tag == 0
    ensures Agree(answerer.tx.primary, offerer.rx.primary) <==> answerDecoded && answer.Matched()
  {
    ghost var r, q, back := answerer.rx.primary, answerer.rx.secondary, offerer.rx.primary;
    var sdp := offerer.SendSdp(first, second);
    ghost var s := offerer.tx.secondary;
    answerer.ReceiveSdp(sdp, decoded);
    ghost var u := answerer.rx.secondary;
    var reply := answerer.SendSdp(answer, []);
    offerer.ReceiveSdp(reply, [answerDecoded]);
    OfferAgrees(first, second, Name(answer.suite), decoded, s, r, q, u);
    AnswerAgrees(answer, back, answerDecoded);
  }

  /** An answer to an offer of two lines, by the suite and the tag it names: the offerer then sends
      with the second line if that alone is of the suite or the answer names its tag, and with the
      first if it alone is or the answer names another tag. */
  method TakeAnswer(offerer: End, first: Line, second: Line, answer: Crypto, decoded: bool)
    requires offerer.tx != offerer.rx && offerer.state in {NoSession, Completed} && answer.tag != 0
    modifies offerer, offerer.tx, offerer.rx
    ensures var a, b := Name(first.Kept()) == Name(answer.suite), Name(second.Kept()) == Name(answer.suite);
      (b && (!a || answer.tag == 2) ==> offerer.tx.primary == SlotOf(second, 2)) &&
      (a && (!b || answer.tag != 2) ==> offerer.tx.primary == SlotOf(first, 1)) &&
      (!a && !b ==> offerer.tx.primary.tag == 0)
  {
    var _ := offerer.SendSdp(first, [second]);
    TagChooses(offerer.tx.primary, offerer.tx.secondary, answer.tag, Name(answer.suite));
    offerer.ReceiveSdp([answer], [decoded]);
  }

  /** When every keyword is of its line's suite, a line settles it exactly when it was decoded. */
  lemma {:induction false} MatchedSettle(offer: seq<Line>, suite: string, decoded: seq<bool>)
    requires |decoded| == |offer| && forall i :: 0 <= i < |offer| ==> offer[i].Matched()
    ensures var i := FirstOf(offer, suite); Settled(offer, suite, decoded) <==> i < |offer| && decoded[i]
  {
  }

  /** A keyword of another suite keeps the ends apart, although the line was offered and
      decoded. */
  lemma {:induction false} UnmatchedApart()
    ensures var line := Line(0, "key", Some(1)); !Settled([line], Name(1), [true]) && !Settled([line], Name(0), [true])
  {
    var line := Line(0, "key", Some(1));
    assert Name(0)[21] == '8' && Name(1)[21] == '3';
    assert FirstOf([line], Name(1)) == 0;
  }
}
