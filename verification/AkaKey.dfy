/** The bytes of an AKA key (`getAKAKey` of src/auth.cpp): those of its text, or those that its
    hex digits after "0x" give, with zeros past their end. */
module AkaKey {
  import opened AuthDigest
  import opened DigestResponse

  predicate IsDigit(c: char) {
    '0' <= c <= '9' || 'a' <= c <= 'f' || 'A' <= c <= 'F'
  }

  function Nibble(c: char): (n: nat)
    requires IsDigit(c)
    ensures n < 16
  {
    if c <= '9' then c as int - '0' as int
    else if c <= 'F' then c as int - 'A' as int + 10 else c as int - 'a' as int + 10
  }

  /** The hex digits are those of both cases, in order. */
  lemma {:induction false} DigitsAre(c: char)
    ensures IsDigit(c) <==> c in "0123456789abcdefABCDEF"
    ensures IsDigit(c) ==> c == "0123456789abcdef"[Nibble(c)] || c == "0123456789ABCDEF"[Nibble(c)]
  {
  }

  function ToByte(c: char): byte {
    (c as int % 256) as byte
  }

  /** The bytes of hex digits, two at a time, up to the first character that is none. */
  function Digits(s: string, most: nat): (r: seq<byte>)
    ensures |r| <= most
  {
    if most == 0 || s == "" || !IsDigit(s[0]) then []
    else if |s| > 1 && IsDigit(s[1]) then [(16 * Nibble(s[0]) + Nibble(s[1])) as byte] + Digits(s[2..], most - 1)
    else [Nibble(s[0]) as byte]
  }

  function Zeros(n: nat): (r: seq<byte>)
    ensures |r| == n && forall i :: 0 <= i < n ==> r[i] == 0
  {
    if n == 0 then [] else [0] + Zeros(n - 1)
  }

  /** The first bytes, or all and zeros. */
  function Fit(bytes: seq<byte>, len: nat): (r: seq<byte>)
    ensures |r| == len
  {
    if |bytes| >= len then bytes[..len] else bytes + Zeros(len - |bytes|)
  }

  function Texts(s: string): (r: seq<byte>)
    ensures |r| == |s| && forall i :: 0 <= i < |s| ==> r[i] == ToByte(s[i])
  {
    if s == "" then [] else [ToByte(s[0])] + Texts(s[1..])
  }

  predicate IsHexKey(text: string) {
    |text| >= 2 && text[0] == '0' && text[1] == 'x'
  }

  function Key(text: string, len: nat): seq<byte> {
    if IsHexKey(text) then Fit(Digits(text[2..], len), len) else Fit(Texts(text), len)
  }

  /** A key written in hex is the key. */
  lemma {:induction false} HexKeyRoundTrip(key: seq<byte>, len: nat)
    ensures Key("0x" + ToHex(key), len) == Fit(key, len)
  {
    assert ("0x" + ToHex(key))[2..] == ToHex(key);
    DigitsOfHex(key, len);
  }

  lemma {:induction false} DigitsOfHex(key: seq<byte>, most: nat)
    ensures Digits(ToHex(key), most) == if |key| <= most then key else key[..most]
  {
    if key != [] && most > 0 {
      var s := ToHex(key);
      assert s == [HexDigit(key[0] as nat / 16), HexDigit(key[0] as nat % 16)] + ToHex(key[1..]);
      assert s[2..] == ToHex(key[1..]);
      NibbleOf(key[0] as nat / 16);
      NibbleOf(key[0] as nat % 16);
      DigitsOfHex(key[1..], most - 1);
    }
  }

  lemma {:induction false} NibbleOf(n: nat)
    requires n < 16
    ensures IsDigit(HexDigit(n)) && Nibble(HexDigit(n)) == n
  {
  }

  /** One or two digits at `i` give a byte, and the digits go on at `next`. */
  predicate IsByte(s: string, i: nat, b: byte, next: nat) {
    i < |s| && IsDigit(s[i]) &&
    if i + 1 < |s| && IsDigit(s[i + 1])
    then next == i + 2 && b == (16 * Nibble(s[i]) + Nibble(s[i + 1])) as byte
    else next == i + 1 && b == Nibble(s[i]) as byte
  }

  /** One byte more of the hex digits. */
  lemma {:induction false} NextByte(done: seq<byte>, s: string, i: nat, most: nat, b: byte, next: nat)
    requires IsByte(s, i, b, next) && most > 0
    ensures next <= |s| && done + Digits(s[i..], most) == (done + [b]) + Digits(s[next..], most - 1)
  {
    assert s[i..][0] == s[i];
    if i + 1 < |s| {
      assert s[i..][1] == s[i + 1];
      assert s[i..][2..] == s[i + 2..];
    }
  }

  lemma {:induction false} NoByte(done: seq<byte>, s: string, i: nat, most: nat)
    requires i <= |s| && (most == 0 || i == |s| || !IsDigit(s[i]))
    ensures done + Digits(s[i..], most) == done
  {
    assert i < |s| ==> s[i..][0] == s[i];
  }

  /** Zeros past the bytes that were filled in. */
  lemma {:induction false} FitIs(a: seq<byte>, bytes: seq<byte>)
    requires forall k :: 0 <= k < |a| ==> a[k] == if k < |bytes| then bytes[k] else 0
    ensures a == Fit(bytes, |a|)
  {
  }

  method ReadByte(text: string, i: nat) returns (val: byte, next: nat)
    requires i < |text| && IsDigit(text[i])
    ensures IsByte(text, i, val, next)
  {
    var v := Nibble(text[i]);
    next := i + 1;
    if next < |text| && IsDigit(text[next]) {
      v := 16 * v + Nibble(text[next]);
      next := next + 1;
    }
    val := v as byte;
  }

  /** The bytes that were filled in, and zeros after. */
  predicate Holds(key: array<byte>, done: seq<byte>)
    reads key
  {
    |done| <= key.Length && forall k :: 0 <= k < key.Length ==> key[k] == if k < |done| then done[k] else 0
  }

  method PutByte(key: array<byte>, ghost done: seq<byte>, n: nat, val: byte)
    requires Holds(key, done) && n == |done| < key.Length
    modifies key
    ensures Holds(key, done + [val])
  {
    key[n] := val;
  }

  /** The hex digits are read into a cleared key. */
  method ReadDigits(text: string, key: array<byte>)
    requires IsHexKey(text) && forall k :: 0 <= k < key.Length ==> key[k] == 0
    modifies key
    ensures key[..] == Key(text, key.Length)
  {
    var n, i := 0, 2;
    ghost var done: seq<byte> := [];
    while n < key.Length && i < |text| && IsDigit(text[i])
      invariant 2 <= i <= |text| && n == |done| <= key.Length
      invariant done + Digits(text[i..], key.Length - n) == Digits(text[2..], key.Length)
      invariant Holds(key, done)
    {
      var val, next := ReadByte(text, i);
      NextByte(done, text, i, key.Length - n, val, next);
      PutByte(key, done, n, val);
      done, n, i := done + [val], n + 1, next;
    }
    NoByte(done, text, i, key.Length - n);
    FitIs(key[..], done);
  }

  /** The characters are copied into a cleared key. */
  method CopyText(text: string, key: array<byte>)
    requires !IsHexKey(text) && forall k :: 0 <= k < key.Length ==> key[k] == 0
    modifies key
    ensures key[..] == Key(text, key.Length)
  {
    var n := 0;
    while n < key.Length && n < |text|
      invariant n <= key.Length && n <= |text| && Holds(key, Texts(text)[..n])
    {
      PutByte(key, Texts(text)[..n], n, ToByte(text[n]));
      assert Texts(text)[..n + 1] == Texts(text)[..n] + [ToByte(text[n])];
      n := n + 1;
    }
    FitIs(key[..], Texts(text)[..n]);
  }

  /** `getAKAKey`. */
  method GetAkaKey(text: string, key: array<byte>)
    modifies key
    ensures key[..] == Key(text, key.Length)
  {
    forall k | 0 <= k < key.Length { key[k] := 0; }
    if IsHexKey(text) { ReadDigits(text, key); } else { CopyText(text, key); }
  }
}
