/** The texts that RFC 7616 hashes for a response (sections 3.4.1 to 3.4.3), and its checksum in
    two parts. */
module Rfc7616 {
  /** Texts with a colon between each two. */
  function Colons(texts: seq<string>): string {
    if texts == [] then "" else if |texts| == 1 then texts[0] else texts[0] + ":" + Colons(texts[1..])
  }

  /** A1 = unq(username) ":" unq(realm) ":" passwd */
  function A1(user: string, realm: string, password: string): string {
    Colons([user, realm, password])
  }

  /** A1 of a -sess algorithm, from the hash of the other. */
  function SessionA1(hash: string, nonce: string, cnonce: string): string {
    Colons([hash, nonce, cnonce])
  }

  /** A2 = Method ":" request-uri */
  function A2(method_: string, uri: string): string {
    Colons([method_, uri])
  }

  /** A2 with the integrity of a body: Method ":" request-uri ":" H(entity-body) */
  function IntegrityA2(method_: string, uri: string, bodyHash: string): string {
    Colons([method_, uri, bodyHash])
  }

  /** The data that the response is of: nonce ":" nc ":" cnonce ":" qop ":" H(A2) */
  function Data(nonce: string, nc: string, cnonce: string, qop: string, hash: string): string {
    Colons([nonce, nc, cnonce, qop, hash])
  }

  /** The data without a quality of protection, as RFC 2069 has it: nonce ":" H(A2) */
  function OldData(nonce: string, hash: string): string {
    Colons([nonce, hash])
  }

  /** The text that KD(secret, data) hashes. */
  function Keyed(secret: string, data: string): string {
    Colons([secret, data])
  }

  lemma {:induction false} Two(a: string, b: string)
    ensures Colons([a, b]) == a + ":" + b
  {
    assert [a, b][1..] == [b];
  }

  lemma {:induction false} Three(a: string, b: string, c: string)
    ensures Colons([a, b, c]) == a + ":" + b + ":" + c
  {
    assert [a, b, c][1..] == [b, c];
    Two(b, c);
  }

  lemma {:induction false} Five(a: string, b: string, c: string, d: string, e: string)
    ensures Colons([a, b, c, d, e]) == a + ":" + b + ":" + c + ":" + d + ":" + e
  {
    assert [a, b, c, d, e][1..] == [b, c, d, e] && [b, c, d, e][1..] == [c, d, e];
    Three(c, d, e);
  }
}
