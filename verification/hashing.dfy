/** The password hashing primitive (bcryptjs `hash` and `compare`).

    The salted, one-way transform is not modelled: `Hash` is a tagged encoding
    that carries the bcrypt version and cost prefix. What is modelled is the
    key bcrypt derives from a secret: for the `$2a$`/`$2b$` versions bcryptjs
    takes the UTF-8 bytes of the secret followed by a zero byte, and the key
    schedule reads that sequence cyclically for 72 bytes. `Verify` compares
    those 72 bytes and nothing else. That is enough to state what the store
    relies on, namely that `Verify(s, Hash(s))` holds, which other secrets a
    digest verifies (and which unexpected ones it does), and that a digest is
    never equal to the secret it came from. */
module Hashing {

  /** The work factor `models/User.ts` passes to `bcrypt.hash`. */
  const BcryptCost: nat := 12

  /** bcrypt accepts cost factors 4 to 31. */
  predicate IsCost(cost: nat) {
    4 <= cost <= 31
  }

  predicate IsDigit(c: char) {
    '0' <= c <= '9'
  }

  /** The two decimal digits of a cost factor. */
  function CostDigits(cost: nat): (r: string)
    requires IsCost(cost)
    ensures |r| == 2 && IsDigit(r[0]) && IsDigit(r[1])
    ensures (r[0] as int - '0' as int) * 10 + (r[1] as int - '0' as int) == cost
  {
    [('0' as int + cost / 10) as char, ('0' as int + cost % 10) as char]
  }

  /** The `$2b$NN$` header every digest starts with. */
  function Header(cost: nat): (h: string)
    requires IsCost(cost)
    ensures |h| == 7
  {
    "$2b$" + CostDigits(cost) + "$"
  }

  /** `bcrypt.hash(secret, cost)`. */
  function Hash(secret: string, cost: nat): (h: string)
    requires IsCost(cost)
    ensures IsDigest(h)
    ensures |h| == |secret| + 7
  {
    Header(cost) + secret
  }

  /** A string in the shape `Hash` produces: a `$2b$` header with a cost. */
  predicate IsDigest(h: string) {
    && |h| >= 7
    && h[..4] == "$2b$" && IsDigit(h[4]) && IsDigit(h[5]) && h[6] == '$'
    && IsCost((h[4] as int - '0' as int) * 10 + (h[5] as int - '0' as int))
  }

  newtype byte = x: int | 0 <= x < 256

  /** The most bytes of a secret bcrypt reads. */
  const MaxInputBytes: nat := 72

  /** The UTF-8 encoding of one character: one to four bytes. */
  function CharUtf8(c: char): (bs: seq<byte>)
    ensures 1 <= |bs| <= 4
    ensures c == '\0' ==> bs == [0]
    ensures c != '\0' ==> 0 !in bs
  {
    var n := c as int;
    if n < 0x80 then [n as byte]
    else if n < 0x800 then [(0xC0 + n / 0x40) as byte, (0x80 + n % 0x40) as byte]
    else if n < 0x10000 then
      [(0xE0 + n / 0x1000) as byte, (0x80 + n / 0x40 % 0x40) as byte, (0x80 + n % 0x40) as byte]
    else
      [(0xF0 + n / 0x40000) as byte, (0x80 + n / 0x1000 % 0x40) as byte,
       (0x80 + n / 0x40 % 0x40) as byte, (0x80 + n % 0x40) as byte]
  }

  /** The UTF-8 encoding of a string, character by character. */
  function Utf8(s: string): (bs: seq<byte>)
    ensures |s| <= |bs| <= 4 * |s|
    ensures '\0' !in s ==> 0 !in bs
  {
    if s == [] then [] else CharUtf8(s[0]) + Utf8(s[1..])
  }

  /** The key bcryptjs builds from a secret for the `$2a$`/`$2b$` versions:
      its UTF-8 bytes and a terminating zero byte. */
  function Key(secret: string): (k: seq<byte>)
    ensures |k| == |Utf8(secret)| + 1 && k[..|k| - 1] == Utf8(secret) && k[|k| - 1] == 0
  {
    Utf8(secret) + [0]
  }

  /** The first `n` bytes of `k` repeated over and over: how the key schedule
      reads a key, wrapping around to its start when it runs out. */
  function Cycle(k: seq<byte>, n: nat): (r: seq<byte>)
    requires |k| > 0
    ensures |r| == n
    ensures n <= |k| ==> r == k[..n]
    ensures n > |k| ==> r[..|k|] == k
    decreases n
  {
    if n <= |k| then k[..n] else k + Cycle(k, n - |k|)
  }

  /** The bytes of `secret` bcrypt actually uses: 72 bytes of its key read
      cyclically. A secret of 72 bytes or more contributes its first 72 bytes;
      a shorter one contributes all its bytes and the zero byte, and then
      starts over. */
  function BcryptInput(secret: string): (bs: seq<byte>)
    ensures |bs| == MaxInputBytes
    ensures |Utf8(secret)| >= MaxInputBytes ==> bs == Utf8(secret)[..MaxInputBytes]
    ensures |Utf8(secret)| < MaxInputBytes ==> bs[..|Utf8(secret)| + 1] == Utf8(secret) + [0]
  {
    var k := Key(secret);
    assert |Utf8(secret)| >= MaxInputBytes ==> k[..MaxInputBytes] == Utf8(secret)[..MaxInputBytes];
    Cycle(k, MaxInputBytes)
  }

  /** `bcrypt.compare(secret, h)`: false for anything that is not a digest;
      for a digest, whether `secret` agrees with the hashed secret on the
      bytes bcrypt reads. */
  predicate Verify(secret: string, h: string) {
    IsDigest(h) && BcryptInput(h[7..]) == BcryptInput(secret)
  }

  /** A digest verifies the secret it was made from, whatever the cost. */
  lemma VerifyHash(secret: string, cost: nat)
    requires IsCost(cost)
    ensures Verify(secret, Hash(secret, cost))
  {
    assert Hash(secret, cost)[7..] == secret;
  }

  /** A digest verifies exactly the secrets that agree with its own on the
      bytes bcrypt reads. */
  lemma VerifyOnlyOwnSecret(secret: string, other: string, cost: nat)
    requires IsCost(cost)
    ensures Verify(other, Hash(secret, cost)) <==> BcryptInput(other) == BcryptInput(secret)
  {
    assert Hash(secret, cost)[7..] == secret;
  }

  /** Encoding a concatenation is concatenating the encodings. */
  lemma {:induction false} Utf8Append(a: string, b: string)
    ensures Utf8(a + b) == Utf8(a) + Utf8(b)
  {
    if a == [] {
      assert a + b == b;
    } else {
      assert (a + b)[0] == a[0];
      assert (a + b)[1..] == a[1..] + b;
      Utf8Append(a[1..], b);
    }
  }

  /** The lead byte of a character's encoding fixes the encoding's length. */
  function SequenceLength(lead: byte): nat {
    if lead < 0x80 then 1 else if lead < 0xE0 then 2 else if lead < 0xF0 then 3 else 4
  }

  /** The encoding of one character is read back from its bytes. */
  lemma CharUtf8Decodes(c: char)
    ensures var bs := CharUtf8(c);
            |bs| == SequenceLength(bs[0])
            && c as int == match |bs|
                           case 1 => bs[0] as int
                           case 2 => (bs[0] as int - 0xC0) * 0x40 + (bs[1] as int - 0x80)
                           case 3 => ((bs[0] as int - 0xE0) * 0x40 + (bs[1] as int - 0x80)) * 0x40 + (bs[2] as int - 0x80)
                           case _ => (((bs[0] as int - 0xF0) * 0x40 + (bs[1] as int - 0x80)) * 0x40
                                      + (bs[2] as int - 0x80)) * 0x40 + (bs[3] as int - 0x80)
  {
    var n, bs := c as int, CharUtf8(c);
    if n < 0x80 {
    } else if n < 0x800 {
      TwoByteSplit(n);
      assert bs[0] as int == 0xC0 + n / 0x40 && bs[1] as int == 0x80 + n % 0x40;
    } else if n < 0x10000 {
      ThreeByteSplit(n);
      assert bs[0] as int == 0xE0 + n / 0x1000 && bs[1] as int == 0x80 + n / 0x40 % 0x40
          && bs[2] as int == 0x80 + n % 0x40;
    } else {
      FourByteSplit(n);
      assert bs[0] as int == 0xF0 + n / 0x40000 && bs[1] as int == 0x80 + n / 0x1000 % 0x40
          && bs[2] as int == 0x80 + n / 0x40 % 0x40 && bs[3] as int == 0x80 + n % 0x40;
    }
  }

  /** The two six-bit groups of an 11-bit code point. */
  lemma TwoByteSplit(n: int)
    requires 0x80 <= n < 0x800
    ensures 0xC0 <= 0xC0 + n / 0x40 < 0xE0
    ensures n == (n / 0x40) * 0x40 + n % 0x40
  {
  }

  /** The groups of a 16-bit code point. */
  lemma ThreeByteSplit(n: int)
    requires 0x800 <= n < 0x10000
    ensures 0xE0 <= 0xE0 + n / 0x1000 < 0xF0
    ensures n == ((n / 0x1000) * 0x40 + n / 0x40 % 0x40) * 0x40 + n % 0x40
  {
  }

  /** The groups of a code point beyond the Basic Multilingual Plane. */
  lemma FourByteSplit(n: int)
    requires 0x10000 <= n < 0x110000
    ensures 0xF0 <= 0xF0 + n / 0x40000
    ensures n == (((n / 0x40000) * 0x40 + n / 0x1000 % 0x40) * 0x40 + n / 0x40 % 0x40) * 0x40 + n % 0x40
  {
    assert n / 0x40 == (n / 0x1000) * 0x40 + n / 0x40 % 0x40;
    assert n / 0x1000 == (n / 0x40000) * 0x40 + n / 0x1000 % 0x40;
  }

  /** Two encodings that start alike start with the same character, and what
      follows it is alike too. */
  lemma CharUtf8PrefixFree(c: char, d: char, rest1: seq<byte>, rest2: seq<byte>)
    requires CharUtf8(c) + rest1 == CharUtf8(d) + rest2
    ensures c == d && rest1 == rest2
  {
    var bc, bd := CharUtf8(c), CharUtf8(d);
    CharUtf8Decodes(c);
    CharUtf8Decodes(d);
    assert bc[0] == (bc + rest1)[0] == bd[0];
    assert |bc| == |bd|;
    assert bc == (bc + rest1)[..|bc|] == (bd + rest2)[..|bd|] == bd;
    assert rest1 == (bc + rest1)[|bc|..] == (bd + rest2)[|bd|..] == rest2;
  }

  /** UTF-8 encoding loses nothing: different strings have different encodings. */
  lemma {:induction false} Utf8Injective(a: string, b: string)
    requires Utf8(a) == Utf8(b)
    ensures a == b
  {
    if a != [] && b != [] {
      CharUtf8PrefixFree(a[0], b[0], Utf8(a[1..]), Utf8(b[1..]));
      Utf8Injective(a[1..], b[1..]);
      assert a == [a[0]] + a[1..];
      assert b == [b[0]] + b[1..];
    }
  }

  /** For a secret of at most 72 bytes without a U+0000 character, the bytes
      bcrypt reads start with the secret's own bytes, none of them zero, and
      when there is room, a zero byte follows them. */
  lemma ShortInputMarksItsEnd(s: string)
    requires '\0' !in s && |Utf8(s)| <= MaxInputBytes
    ensures BcryptInput(s)[..|Utf8(s)|] == Utf8(s)
    ensures forall i :: 0 <= i < |Utf8(s)| ==> BcryptInput(s)[i] != 0
    ensures |Utf8(s)| < MaxInputBytes ==> BcryptInput(s)[|Utf8(s)|] == 0
  {
    var u, bs := Utf8(s), BcryptInput(s);
    if |u| < MaxInputBytes {
      assert bs[..|u|] == (bs[..|u| + 1])[..|u|] == (u + [0])[..|u|];
      assert bs[|u|] == (bs[..|u| + 1])[|u|];
    }
    forall i | 0 <= i < |u|
      ensures bs[i] != 0
    {
      assert bs[i] == bs[..|u|][i] == u[i];
    }
  }

  /** Secrets of at most 72 bytes without a U+0000 character give bcrypt the
      same bytes only when they are equal. */
  lemma ShortKeysDiffer(a: string, b: string)
    requires '\0' !in a && '\0' !in b
    requires |Utf8(a)| <= MaxInputBytes && |Utf8(b)| <= MaxInputBytes
    ensures BcryptInput(a) == BcryptInput(b) <==> a == b
  {
    if BcryptInput(a) == BcryptInput(b) {
      ShortInputMarksItsEnd(a);
      ShortInputMarksItsEnd(b);
      // the first zero byte sits right after each secret's bytes
      assert |Utf8(a)| == |Utf8(b)|;
      assert Utf8(a) == BcryptInput(a)[..|Utf8(a)|] == BcryptInput(b)[..|Utf8(b)|] == Utf8(b);
      Utf8Injective(a, b);
    }
  }

  /** Within bcrypt's limit, and without U+0000, a digest verifies no secret
      but its own. */
  lemma ShortSecretVerifiesOnlyItself(secret: string, other: string, cost: nat)
    requires IsCost(cost)
    requires '\0' !in secret && '\0' !in other
    requires |Utf8(secret)| <= MaxInputBytes && |Utf8(other)| <= MaxInputBytes
    ensures Verify(other, Hash(secret, cost)) <==> other == secret
  {
    VerifyOnlyOwnSecret(secret, other, cost);
    ShortKeysDiffer(other, secret);
  }

  /** A key repeated is read as the key itself. */
  lemma {:induction false} CycleTwice(k: seq<byte>, n: nat)
    requires |k| > 0
    ensures Cycle(k + k, n) == Cycle(k, n)
    decreases n
  {
    var kk := k + k;
    if n <= |k| {
      assert kk[..n] == k[..n];
    } else if n <= |kk| {
      var rest := n - |k|;
      assert Cycle(k, n) == k + k[..rest];
      assert kk[..n] == k + k[..rest];
    } else {
      var rest := n - |kk|;
      CycleTwice(k, rest);
      assert Cycle(k, n - |k|) == k + Cycle(k, rest);
      assert Cycle(k, n) == k + (k + Cycle(k, rest));
      assert Cycle(kk, n) == kk + Cycle(k, rest);
    }
  }

  /** The zero byte that ends the key makes a U+0000 character ambiguous: a
      secret followed by U+0000 and itself gives bcrypt the same bytes as the
      secret alone, so each verifies against the other's digest. */
  lemma NulRepeatCollides(secret: string, cost: nat)
    requires IsCost(cost)
    ensures BcryptInput(secret + ['\0'] + secret) == BcryptInput(secret)
    ensures Verify(secret + ['\0'] + secret, Hash(secret, cost))
  {
    var u := Utf8(secret);
    Utf8Append(secret + ['\0'], secret);
    Utf8Append(secret, ['\0']);
    assert Utf8(['\0']) == [0] by {
      assert ['\0'][1..] == [];
    }
    assert Key(secret + ['\0'] + secret) == Key(secret) + Key(secret);
    CycleTwice(Key(secret), MaxInputBytes);
    VerifyOnlyOwnSecret(secret, secret + ['\0'] + secret, cost);
  }

  /** A secret of exactly 71 bytes fills the 72 bytes with its own bytes and
      the zero byte, so appending U+0000 to it changes nothing bcrypt reads. */
  lemma NulAfter71BytesCollides(secret: string, cost: nat)
    requires IsCost(cost)
    requires |Utf8(secret)| == MaxInputBytes - 1
    ensures BcryptInput(secret + ['\0']) == BcryptInput(secret)
    ensures Verify(secret + ['\0'], Hash(secret, cost))
  {
    Utf8Append(secret, ['\0']);
    assert Utf8(['\0']) == [0] by {
      assert ['\0'][1..] == [];
    }
    assert BcryptInput(secret) == BcryptInput(secret)[..MaxInputBytes];
    VerifyOnlyOwnSecret(secret, secret + ['\0'], cost);
  }

  /** Past bcrypt's limit nothing more counts: a secret of 72 bytes or more
      verifies with anything appended to it. */
  lemma LongSecretAcceptsAnySuffix(secret: string, suffix: string, cost: nat)
    requires IsCost(cost)
    requires |Utf8(secret)| >= MaxInputBytes
    ensures Verify(secret + suffix, Hash(secret, cost))
  {
    VerifyOnlyOwnSecret(secret, secret + suffix, cost);
    Utf8Append(secret, suffix);
    assert (Utf8(secret) + Utf8(suffix))[..MaxInputBytes] == Utf8(secret)[..MaxInputBytes];
  }

  /** Where position `i` falls within a cycle of length `period`. */
  function Wrap(i: nat, period: nat): (r: nat)
    requires period > 0
    ensures r < period
    ensures i < period ==> r == i
    ensures i >= period ==> r == Wrap(i - period, period)
    decreases i
  {
    if i < period then i else Wrap(i - period, period)
  }

  /** The byte at position `i` of `n` cyclically read key bytes. */
  lemma {:induction false} CycleAt(k: seq<byte>, n: nat, i: nat)
    requires |k| > 0 && i < n
    ensures Cycle(k, n)[i] == k[Wrap(i, |k|)]
    decreases n
  {
    if n > |k| && i >= |k| {
      CycleAt(k, n - |k|, i - |k|);
    }
  }

  /** A sequence that repeats itself `m` places further on is fixed by its
      first `m` elements. */
  lemma {:induction false} RepeatsWithPeriod(c: seq<byte>, m: nat, i: nat)
    requires 0 < m && i < |c|
    requires forall j :: m <= j < |c| ==> c[j] == c[j - m]
    ensures c[i] == c[Wrap(i, m)]
    decreases i
  {
    if i >= m {
      RepeatsWithPeriod(c, m, i - m);
    }
  }

  /** When `c` is `d` shifted `m` places on, `c == d` makes `c` repeat with
      period `m`. */
  lemma ShiftedCopy(c: seq<byte>, d: seq<byte>, m: nat)
    requires 0 < m && |c| == |d|
    requires forall j :: m <= j < |c| ==> c[j] == d[j - m]
    ensures c == d ==> forall i :: 0 <= i < |c| ==> c[i] == c[Wrap(i, m)]
  {
    if c == d {
      forall i | 0 <= i < |c|
        ensures c[i] == c[Wrap(i, m)]
      {
        RepeatsWithPeriod(c, m, i);
      }
    }
  }

  /** A key with a non-zero prefix, read cyclically, differs from the key
      without it: the zero byte at the end of the longer key falls where a
      cycle of the shorter one repeats the non-zero byte before it. */
  lemma PrefixBreaksCycle(g: seq<byte>, u: seq<byte>)
    requires |g| > 0 && 0 !in g && |g| + |u| < MaxInputBytes
    ensures Cycle(g + u + [0], MaxInputBytes) != Cycle(u + [0], MaxInputBytes)
  {
    var m, l := |g|, |u| + 1;
    var c, d := Cycle(g + u + [0], MaxInputBytes), Cycle(u + [0], MaxInputBytes);
    CycleAt(g + u + [0], MaxInputBytes, m - 1);
    CycleAt(g + u + [0], MaxInputBytes, m + l - 1);
    assert c[m - 1] == g[m - 1] != 0;
    assert c[m + l - 1] == 0;
    CycleAt(u + [0], MaxInputBytes, m - 1);
    CycleAt(u + [0], MaxInputBytes, m + l - 1);
    assert d[m - 1] == d[m + l - 1];
  }

  /** The same for a prefix that, with the key, fills all 72 bytes: equal
      readings would repeat with the prefix's length as period and so put a
      prefix byte where the key ends in zero. */
  lemma FullPrefixBreaksCycle(g: seq<byte>, u: seq<byte>)
    requires |g| > 0 && 0 !in g && |g| + |u| == MaxInputBytes
    ensures g + u != Cycle(u + [0], MaxInputBytes)
  {
    var m, l := |g|, |u| + 1;
    var c, d := g + u, Cycle(u + [0], MaxInputBytes);
    forall j | m <= j < MaxInputBytes
      ensures c[j] == d[j - m]
    {
      CycleAt(u + [0], MaxInputBytes, j - m);
    }
    ShiftedCopy(c, d, m);
    CycleAt(u + [0], MaxInputBytes, l - 1);
    assert d[l - 1] == 0;
    assert c[Wrap(l - 1, m)] == g[Wrap(l - 1, m)] != 0;
  }

  /** A digest within bcrypt's limit does not verify against itself: the
      hashed part lacks the header, and the header's bytes are never zero. */
  lemma DigestDoesNotVerifyItself(h: string)
    requires IsDigest(h) && |Utf8(h)| <= MaxInputBytes
    ensures !Verify(h, h)
  {
    var x := h[7..];
    assert h == h[..7] + x;
    assert h[..7] == h[..4] + [h[4], h[5], h[6]];
    assert '\0' !in h[..7];
    Utf8Append(h[..7], x);
    var g, u := Utf8(h[..7]), Utf8(x);
    assert BcryptInput(x) == Cycle(u + [0], MaxInputBytes);
    if |Utf8(h)| < MaxInputBytes {
      assert BcryptInput(h) == Cycle(g + u + [0], MaxInputBytes);
      PrefixBreaksCycle(g, u);
    } else {
      assert BcryptInput(h) == g + u;
      FullPrefixBreaksCycle(g, u);
    }
  }

  /** A digest is never the plaintext it was made from. */
  lemma HashIsNotPlaintext(secret: string, cost: nat)
    requires IsCost(cost)
    ensures Hash(secret, cost) != secret
  {
  }
}
