/** `decodeBase64Code` and `decodeBase64` of web/client/scripts/util.js: a
    decoder for the alphabet of section 4 of RFC 4648 that skips every other
    character (the `=` padding included) and writes into a freshly allocated
    byte array. The encoder of the same section is defined alongside as its
    partner. The accumulator update `acc |= v << s` is written `acc + v * 2^s`:
    each of the four 6-bit values of a group lands in its own bit field of a
    zeroed accumulator, so the two agree. */
module Base64 {

  newtype byte = x: int | 0 <= x < 256

  /** `decodeBase64Code(c)` on a character code: the value of an alphabet
      character, 0 for anything else. */
  function DecodeCode(c: int): (v: int)
    ensures 0 <= v < 64
  {
    if c > 64 && c < 91 then c - 65
    else if c > 96 && c < 123 then c - 71
    else if c > 47 && c < 58 then c + 4
    else if c == 43 then 62
    else if c == 47 then 63
    else 0
  }

  /** The characters the decoder keeps: `[A-Za-z0-9+/]`. */
  predicate IsBase64Char(c: char) {
    'A' <= c <= 'Z' || 'a' <= c <= 'z' || '0' <= c <= '9' || c == '+' || c == '/'
  }

  /** The table of section 4 of RFC 4648: value `v` is written as this character. */
  function Alphabet(v: int): char
    requires 0 <= v < 64
  {
    if v < 26 then (65 + v) as char
    else if v < 52 then (71 + v) as char
    else if v < 62 then (v - 4) as char
    else if v == 62 then '+'
    else '/'
  }

  /** `decodeBase64Code` inverts the table... */
  lemma DecodeCodeOfAlphabet(v: int)
    requires 0 <= v < 64
    ensures IsBase64Char(Alphabet(v)) && DecodeCode(Alphabet(v) as int) == v
  {
  }

  /** ...and the table inverts `decodeBase64Code` on the alphabet. */
  lemma AlphabetOfDecodeCode(c: char)
    requires IsBase64Char(c)
    ensures Alphabet(DecodeCode(c as int)) == c
  {
  }

  /** `content.replace(/[^A-Za-z0-9\+\/]/g, "")`. */
  function Kept(s: string): (r: string)
    ensures |r| <= |s|
  {
    if s == [] then []
    else (if IsBase64Char(s[0]) then [s[0]] else []) + Kept(s[1..])
  }

  /** Only alphabet characters are kept... */
  lemma {:induction false} KeptAlphabet(s: string)
    ensures forall i :: 0 <= i < |Kept(s)| ==> IsBase64Char(Kept(s)[i])
  {
    if s != [] {
      KeptAlphabet(s[1..]);
    }
  }

  /** Filtering distributes over concatenation. */
  lemma {:induction false} KeptConcat(a: string, b: string)
    ensures Kept(a + b) == Kept(a) + Kept(b)
  {
    if a != [] {
      assert (a + b)[1..] == a[1..] + b;
      KeptConcat(a[1..], b);
    } else {
      assert a + b == b;
    }
  }

  /** ...and a string of alphabet characters is kept whole. */
  lemma {:induction false} KeptAll(s: string)
    requires forall i :: 0 <= i < |s| ==> IsBase64Char(s[i])
    ensures Kept(s) == s
  {
    if s != [] {
      KeptAll(s[1..]);
    }
  }

  /** `v << (18 - 6 * k)`: the `k`-th value of a group moved into place. */
  function Shifted(v: int, k: int): int {
    if k == 0 then v * 262144 else if k == 1 then v * 4096 else if k == 2 then v * 64 else v
  }

  /** `(acc >>> ((2 - j) * 8)) & 255`: the `j`-th byte of a group. */
  function ByteOf(acc: int, j: int): byte {
    (if j == 0 then (acc / 65536) % 256 else if j == 1 then (acc / 256) % 256 else acc % 256) as byte
  }

  /** The value of the `k`-th character of a group, 0 past its end. */
  function ValueAt(g: string, k: nat): int {
    if k < |g| then DecodeCode(g[k] as int) else 0
  }

  /** The accumulator after the characters of one group `g`: each value
      shifted into its own six bits of 24. */
  function GroupAcc(g: string): (acc: int)
    ensures 0 <= acc < 16777216
  {
    ValueAt(g, 0) * 262144 + ValueAt(g, 1) * 4096 + ValueAt(g, 2) * 64 + ValueAt(g, 3)
  }

  /** One step of the accumulation loop. */
  lemma GroupAccSnoc(g: string, c: char)
    requires |g| < 4
    ensures GroupAcc(g + [c]) == GroupAcc(g) + Shifted(DecodeCode(c as int), |g|)
  {
    var h := g + [c];
    assert forall k: nat :: k < |g| ==> ValueAt(h, k) == ValueAt(g, k);
    assert ValueAt(h, |g|) == DecodeCode(c as int);
  }

  /** The first `n` bytes written out of an accumulator. */
  function GroupBytes(acc: int, n: nat): (r: seq<byte>)
    requires n <= 3
    ensures |r| == n
  {
    if n == 0 then [] else GroupBytes(acc, n - 1) + [ByteOf(acc, n - 1)]
  }

  /** The bytes of a group in the order `decodeBase64` writes them. */
  lemma GroupBytesOrder(acc: int)
    ensures GroupBytes(acc, 1) == [ByteOf(acc, 0)]
    ensures GroupBytes(acc, 2) == [ByteOf(acc, 0), ByteOf(acc, 1)]
    ensures GroupBytes(acc, 3) == [ByteOf(acc, 0), ByteOf(acc, 1), ByteOf(acc, 2)]
  {
    assert GroupBytes(acc, 1) == [] + [ByteOf(acc, 0)];
    assert GroupBytes(acc, 2) == GroupBytes(acc, 1) + [ByteOf(acc, 1)];
    assert GroupBytes(acc, 3) == GroupBytes(acc, 2) + [ByteOf(acc, 2)];
  }

  /** What `decodeBase64` returns for the kept characters `src`: three bytes
      per group of four, and as many bytes as characters for a final partial
      group. */
  function Decoded(src: string): seq<byte>
  {
    if |src| == 0 then []
    else if |src| < 4 then GroupBytes(GroupAcc(src), |src|)
    else GroupBytes(GroupAcc(src[..4]), 3) + Decoded(src[4..])
  }

  /** The length of the result is `destlen`, `(len >> 2) * 3 + (len & 3)`. */
  lemma {:induction false} DecodedLength(src: string)
    ensures |Decoded(src)| == 3 * (|src| / 4) + |src| % 4
  {
    if |src| >= 4 {
      DecodedLength(src[4..]);
    }
  }

  /** Decoding a prefix of whole groups and then one more group. */
  lemma {:induction false} DecodedSnoc(x: string, g: string)
    requires |x| % 4 == 0 && 1 <= |g| <= 4
    ensures Decoded(x + g) == Decoded(x) + GroupBytes(GroupAcc(g), if |g| == 4 then 3 else |g|)
    decreases |x|
  {
    if x == [] {
      assert x + g == g;
      if |g| == 4 {
        assert g[..4] == g && g[4..] == [];
      }
    } else {
      assert (x + g)[..4] == x[..4];
      assert (x + g)[4..] == x[4..] + g;
      DecodedSnoc(x[4..], g);
    }
  }

  /** `decodeBase64(content)`. */
  method DecodeBase64(content: string) returns (dest: array<byte>)
    ensures dest[..] == Decoded(Kept(content))
  {
    var src := Kept(content);
    dest := DecodeGroups(src);
  }

  /** `destlen`, `(len >> 2) * 3 + (len & 3)`. */
  function DestLen(len: nat): nat {
    (len / 4) * 3 + len % 4
  }

  /** The number of bytes the inner loop writes for the group `src[start..i + 1]`. */
  function GroupLen(start: int, i: int): int {
    if i + 1 - start == 4 then 3 else i + 1 - start
  }

  /** The state of the outer loop before character `i`: the current group
      starts at `start` after `groups` whole groups, whose bytes fill `dest`
      up to `desti`, and `acc` holds the values read since `start`. */
  ghost predicate Scanning(src: string, i: int, start: int, groups: int, acc: int, desti: int) {
    0 <= start <= i <= |src| && i - start < 4 && 0 <= groups &&
    (start < |src| ==> start == 4 * groups && desti == 3 * groups) &&
    (i == |src| ==> start == |src|) &&
    (start == |src| ==> desti == DestLen(|src|)) &&
    acc == GroupAcc(src[start..i])
  }

  /** The loop of `decodeBase64` over the kept characters `src`. */
  method DecodeGroups(src: string) returns (dest: array<byte>)
    ensures dest[..] == Decoded(src)
  {
    var len := |src|;
    var destlen := (len / 4) * 3 + len % 4;
    dest := new byte[destlen];
    var acc := 0;
    var desti := 0;
    var i := 0;
    ghost var start, groups := 0, 0;
    while i < len
      invariant Scanning(src, i, start, groups, acc, desti) && dest.Length == destlen
      invariant 0 <= desti <= destlen && dest[..desti] == Decoded(src[..start])
    {
      ghost var acc0 := acc;
      acc := acc + Shifted(DecodeCode(src[i] as int), i % 4);
      if i % 4 == 3 || i == len - 1 {
        GroupEnds(src, i, start, groups, acc0, desti);
        ghost var prefix := dest[..desti];
        desti := WriteGroup(dest, desti, acc);
        GroupWritten(src, start, i, prefix, acc, dest[..desti]);
        start, groups := i + 1, groups + 1;
        acc := 0;
      } else {
        GroupGoesOn(src, i, start, groups, acc0, desti);
      }
      i := i + 1;
    }
    assert src[..len] == src;
    assert dest[..] == dest[..desti];
  }

  /** Inside a group, the loop only accumulates. */
  lemma GroupGoesOn(src: string, i: int, start: int, groups: int, acc: int, desti: int)
    requires Scanning(src, i, start, groups, acc, desti) && i < |src|
    requires !(i % 4 == 3 || i == |src| - 1)
    ensures Scanning(src, i + 1, start, groups, acc + Shifted(DecodeCode(src[i] as int), i % 4), desti)
  {
    AccStep(src, start, i);
  }

  /** At a group's end the inner loop has room for the whole group when it
      has four characters, and for as many bytes as characters when it is
      the final partial group; afterwards a new group starts. */
  lemma GroupEnds(src: string, i: int, start: int, groups: int, acc: int, desti: int)
    requires Scanning(src, i, start, groups, acc, desti) && i < |src|
    requires i % 4 == 3 || i == |src| - 1
    ensures 0 <= start && start % 4 == 0 && i - start < 4
    ensures acc + Shifted(DecodeCode(src[i] as int), i % 4) == GroupAcc(src[start..i + 1])
    ensures 0 <= desti <= DestLen(|src|)
    ensures (if desti + 3 <= DestLen(|src|) then desti + 3 else DestLen(|src|)) == desti + GroupLen(start, i)
    ensures Scanning(src, i + 1, i + 1, groups + 1, 0, desti + GroupLen(start, i))
  {
    AccStep(src, start, i);
    assert src[i + 1..i + 1] == [];
  }

  /** One character more in the current group. */
  lemma AccStep(src: string, start: int, i: int)
    requires 0 <= start <= i < |src| && start % 4 == 0 && i - start < 4
    ensures i % 4 == i - start
    ensures GroupAcc(src[start..i + 1]) == GroupAcc(src[start..i]) + Shifted(DecodeCode(src[i] as int), i % 4)
  {
    assert i % 4 == i - start;
    GroupAccSnoc(src[start..i], src[i]);
    assert src[start..i] + [src[i]] == src[start..i + 1];
  }

  /** After the inner loop, the bytes written so far are those of every
      character up to the group's end. */
  lemma GroupWritten(src: string, start: int, i: int, prefix: seq<byte>, acc: int, written: seq<byte>)
    requires 0 <= start <= i < |src| && start % 4 == 0 && i - start < 4
    requires prefix == Decoded(src[..start]) && acc == GroupAcc(src[start..i + 1])
    requires written == prefix + GroupBytes(acc, GroupLen(start, i))
    ensures written == Decoded(src[..i + 1])
  {
    DecodedSnoc(src[..start], src[start..i + 1]);
    assert src[..start] + src[start..i + 1] == src[..i + 1];
  }

  /** The inner loop: write the bytes of `acc`, at most three and no further
      than the end of `dest`. */
  method WriteGroup(dest: array<byte>, desti0: nat, acc: int) returns (desti: nat)
    requires desti0 <= dest.Length
    modifies dest
    ensures desti == if desti0 + 3 <= dest.Length then desti0 + 3 else dest.Length
    ensures dest[..desti] == old(dest[..desti0]) + GroupBytes(acc, desti - desti0)
  {
    desti := desti0;
    var j := 0;
    while j < 3 && desti < dest.Length
      invariant 0 <= j <= 3 && desti == desti0 + j <= dest.Length
      invariant dest[..desti] == old(dest[..desti0]) + GroupBytes(acc, j)
    {
      dest[desti] := ByteOf(acc, j);
      desti := desti + 1;
      j := j + 1;
    }
  }

  /** The `k`-th 6-bit value of a 24-bit group. */
  function Sextet(n: int, k: int): int {
    (if k == 0 then n / 262144 else if k == 1 then n / 4096 else if k == 2 then n / 64 else n) % 64
  }

  /** The first `m` characters of the encoding of the 24-bit group `n`. */
  function Quad(n: int, m: nat): (r: string)
    requires m <= 4
    ensures |r| == m
  {
    if m == 0 then [] else Quad(n, m - 1) + [Alphabet(Sextet(n, m - 1))]
  }

  /** Character `i` of an encoded group is the table entry of its `i`-th value. */
  lemma {:induction false} QuadAt(n: int, m: nat)
    requires m <= 4
    ensures forall i :: 0 <= i < m ==> IsBase64Char(Quad(n, m)[i]) && Quad(n, m)[i] == Alphabet(Sextet(n, i))
  {
    if m > 0 {
      QuadAt(n, m - 1);
      DecodeCodeOfAlphabet(Sextet(n, m - 1));
    }
  }

  /** Three bytes read as one 24-bit number, most significant first. */
  function Num(b0: byte, b1: byte, b2: byte): int {
    b0 as int * 65536 + b1 as int * 256 + b2 as int
  }

  /** The encoding of section 4 of RFC 4648, with `=` padding. */
  function Encode(bs: seq<byte>): string
    decreases |bs|
  {
    if |bs| == 0 then ""
    else if |bs| >= 3 then Quad(Num(bs[0], bs[1], bs[2]), 4) + Encode(bs[3..])
    else if |bs| == 2 then Quad(Num(bs[0], bs[1], 0), 3) + "="
    else Quad(Num(bs[0], 0, 0), 2) + "=="
  }

  /** Reading back the first `m` characters of an encoded group gives the
      group with its low bits cleared. */
  lemma QuadAcc(n: int, m: nat)
    requires 0 <= n < 16777216 && 1 <= m <= 4
    ensures GroupAcc(Quad(n, m)) == if m == 1 then (n / 262144) * 262144 else if m == 2 then (n / 4096) * 4096
                                    else if m == 3 then (n / 64) * 64 else n
  {
    var q := Quad(n, m);
    SextetDigits(n);
    QuadAt(n, m);
    forall k | 0 <= k < m ensures ValueAt(q, k) == Sextet(n, k) {
      DecodeCodeOfAlphabet(Sextet(n, k));
    }
    assert forall k :: m <= k ==> ValueAt(q, k) == 0;
  }

  /** A 24-bit number in base 64, and its prefixes. */
  lemma SextetDigits(n: int)
    requires 0 <= n < 16777216
    ensures n == Sextet(n, 0) * 262144 + Sextet(n, 1) * 4096 + Sextet(n, 2) * 64 + Sextet(n, 3)
    ensures (n / 64) * 64 == Sextet(n, 0) * 262144 + Sextet(n, 1) * 4096 + Sextet(n, 2) * 64
    ensures (n / 4096) * 4096 == Sextet(n, 0) * 262144 + Sextet(n, 1) * 4096
    ensures (n / 262144) * 262144 == Sextet(n, 0) * 262144
  {
    var c := n / 64;
    var b := c / 64;
    var a := b / 64;
    var s1, s2, s3 := b % 64, c % 64, n % 64;
    assert n == 64 * c + s3 && c == 64 * b + s2 && b == 64 * a + s1;
    assert n / 4096 == b by {
      Euclid(n, 4096, b, s2 * 64 + s3);
    }
    assert n / 262144 == a by {
      Euclid(n, 262144, a, s1 * 4096 + s2 * 64 + s3);
    }
    assert Sextet(n, 0) == a && Sextet(n, 1) == s1 && Sextet(n, 2) == s2 && Sextet(n, 3) == s3;
  }

  /** Splitting a 24-bit number into its three bytes. */
  lemma BytesOfNum(b0: byte, b1: byte, b2: byte)
    ensures GroupBytes(Num(b0, b1, b2), 3) == [b0, b1, b2]
  {
    var n := Num(b0, b1, b2);
    GroupBytesOrder(n);
    assert ByteOf(n, 0) == b0 by {
      Euclid(n, 65536, b0 as int, b1 as int * 256 + b2 as int);
    }
    assert ByteOf(n, 1) == b1 by {
      Euclid(n, 256, b0 as int * 256 + b1 as int, b2 as int);
      Euclid(b0 as int * 256 + b1 as int, 256, b0 as int, b1 as int);
    }
    assert ByteOf(n, 2) == b2 by {
      Euclid(n, 256, b0 as int * 256 + b1 as int, b2 as int);
    }
  }

  /** Joining the three bytes of a 24-bit number gives it back. */
  lemma NumOfBytes(n: int)
    requires 0 <= n < 16777216
    ensures Num(ByteOf(n, 0), ByteOf(n, 1), ByteOf(n, 2)) == n
  {
    var c := n / 256;
    Euclid(n, 65536, c / 256, (c % 256) * 256 + n % 256);
  }

  lemma KeptQuad(n: int, m: nat, rest: string)
    requires m <= 4
    ensures Kept(Quad(n, m) + rest) == Quad(n, m) + Kept(rest)
  {
    KeptConcat(Quad(n, m), rest);
    QuadAt(n, m);
    KeptAll(Quad(n, m));
  }

  /** The zero byte the decoder adds after a partial final group. */
  function Pad(bs: seq<byte>): seq<byte> {
    if |bs| % 3 == 0 then [] else [0]
  }

  lemma PadSkips(bs: seq<byte>)
    requires |bs| >= 3
    ensures Pad(bs[3..]) == Pad(bs)
  {
  }

  /** Decoding undoes encoding; a partial final group comes back with one
      extra zero byte, since the decoder writes as many bytes as it kept
      characters. */
  lemma {:induction false} DecodeEncode(bs: seq<byte>)
    ensures Decoded(Kept(Encode(bs))) == bs + Pad(bs)
    decreases |bs|
  {
    if |bs| >= 3 {
      DecodeEncode(bs[3..]);
      DecodeEncodeFirst(bs);
    } else if |bs| > 0 {
      DecodeEncodeLast(bs);
    }
  }

  /** One whole group of three bytes in front of the rest. */
  lemma DecodeEncodeFirst(bs: seq<byte>)
    requires |bs| >= 3
    requires Decoded(Kept(Encode(bs[3..]))) == bs[3..] + Pad(bs[3..])
    ensures Decoded(Kept(Encode(bs))) == bs + Pad(bs)
  {
    var q := Quad(Num(bs[0], bs[1], bs[2]), 4);
    var rest := Kept(Encode(bs[3..]));
    calc {
      Decoded(Kept(Encode(bs)));
      { KeptEncodeFull(bs); }
      Decoded(q + rest);
      { DecodedGroupThen(q, rest); }
      Decoded(q) + Decoded(rest);
      { FullGroup(bs[0], bs[1], bs[2]); }
      [bs[0], bs[1], bs[2]] + (bs[3..] + Pad(bs[3..]));
      { PadSkips(bs); RegroupFirst(bs, Pad(bs)); }
      bs + Pad(bs);
    }
  }

  lemma RegroupFirst(bs: seq<byte>, tail: seq<byte>)
    requires |bs| >= 3
    ensures [bs[0], bs[1], bs[2]] + (bs[3..] + tail) == bs + tail
  {
    assert bs == [bs[0], bs[1], bs[2]] + bs[3..];
  }

  lemma KeptEncodeFull(bs: seq<byte>)
    requires |bs| >= 3
    ensures Kept(Encode(bs)) == Quad(Num(bs[0], bs[1], bs[2]), 4) + Kept(Encode(bs[3..]))
  {
    KeptQuad(Num(bs[0], bs[1], bs[2]), 4, Encode(bs[3..]));
  }

  /** A whole group in front decodes on its own. */
  lemma DecodedGroupThen(q: string, rest: string)
    requires |q| == 4
    ensures Decoded(q + rest) == Decoded(q) + Decoded(rest)
  {
    assert (q + rest)[..4] == q && (q + rest)[4..] == rest;
    assert q[..4] == q && q[4..] == [];
  }

  /** The final partial group of an encoding. */
  lemma DecodeEncodeLast(bs: seq<byte>)
    requires 1 <= |bs| <= 2
    ensures Decoded(Kept(Encode(bs))) == bs + Pad(bs)
  {
    if |bs| == 2 {
      KeptEncodeTwo(bs);
      TwoByteGroup(bs[0], bs[1]);
      PaddedPair(bs);
    } else {
      KeptEncodeOne(bs);
      OneByteGroup(bs[0]);
      PaddedSingle(bs);
    }
  }

  lemma PaddedPair(bs: seq<byte>)
    requires |bs| == 2
    ensures [bs[0], bs[1], 0] == bs + [0]
  {
  }

  lemma PaddedSingle(bs: seq<byte>)
    requires |bs| == 1
    ensures [bs[0], 0] == bs + [0]
  {
  }

  lemma KeptEncodeTwo(bs: seq<byte>)
    requires |bs| == 2
    ensures Kept(Encode(bs)) == Quad(Num(bs[0], bs[1], 0), 3)
  {
    assert Encode(bs) == Quad(Num(bs[0], bs[1], 0), 3) + "=";
    KeptQuad(Num(bs[0], bs[1], 0), 3, "=");
    assert Kept("=") == [];
  }

  lemma KeptEncodeOne(bs: seq<byte>)
    requires |bs| == 1
    ensures Kept(Encode(bs)) == Quad(Num(bs[0], 0, 0), 2)
  {
    assert Encode(bs) == Quad(Num(bs[0], 0, 0), 2) + "==";
    KeptQuad(Num(bs[0], 0, 0), 2, "==");
    assert Kept("==") == [];
  }

  /** A group of three bytes comes back whole. */
  lemma FullGroup(b0: byte, b1: byte, b2: byte)
    ensures Decoded(Quad(Num(b0, b1, b2), 4)) == [b0, b1, b2]
  {
    var q := Quad(Num(b0, b1, b2), 4);
    QuadAcc(Num(b0, b1, b2), 4);
    BytesOfNum(b0, b1, b2);
    assert q[..4] == q && q[4..] == [];
  }

  /** Two final bytes, encoded as three characters, come back with a zero. */
  lemma TwoByteGroup(b0: byte, b1: byte)
    ensures Decoded(Quad(Num(b0, b1, 0), 3)) == [b0, b1, 0]
  {
    var n := Num(b0, b1, 0);
    var q := Quad(n, 3);
    assert GroupAcc(q) == n by {
      QuadAcc(n, 3);
      Euclid(n, 64, b0 as int * 1024 + b1 as int * 4, 0);
    }
    assert Decoded(q) == GroupBytes(n, 3);
    BytesOfNum(b0, b1, 0);
  }

  /** One final byte, encoded as two characters, comes back with a zero. */
  lemma OneByteGroup(b0: byte)
    ensures Decoded(Quad(Num(b0, 0, 0), 2)) == [b0, 0]
  {
    var n := Num(b0, 0, 0);
    var q := Quad(n, 2);
    assert GroupAcc(q) == n by {
      QuadAcc(n, 2);
      Euclid(n, 4096, b0 as int * 16, 0);
    }
    assert Decoded(q) == GroupBytes(n, 2);
    assert GroupBytes(n, 2) == [b0, 0] by {
      BytesOfNum(b0, 0, 0);
      assert GroupBytes(n, 3) == GroupBytes(n, 2) + [ByteOf(n, 2)];
    }
  }

  /** The values of a group can be read back off its accumulator. */
  lemma SextetsOfAcc(g: string)
    requires |g| == 4
    ensures 0 <= GroupAcc(g) < 16777216
    ensures Sextet(GroupAcc(g), 0) == DecodeCode(g[0] as int)
    ensures Sextet(GroupAcc(g), 1) == DecodeCode(g[1] as int)
    ensures Sextet(GroupAcc(g), 2) == DecodeCode(g[2] as int)
    ensures Sextet(GroupAcc(g), 3) == DecodeCode(g[3] as int)
  {
    SextetsOfDigits(DecodeCode(g[0] as int), DecodeCode(g[1] as int), DecodeCode(g[2] as int), DecodeCode(g[3] as int));
  }

  /** Four base-64 digits are the sextets of the number they form. */
  lemma SextetsOfDigits(v0: int, v1: int, v2: int, v3: int)
    requires 0 <= v0 < 64 && 0 <= v1 < 64 && 0 <= v2 < 64 && 0 <= v3 < 64
    ensures Sextet(v0 * 262144 + v1 * 4096 + v2 * 64 + v3, 0) == v0
    ensures Sextet(v0 * 262144 + v1 * 4096 + v2 * 64 + v3, 1) == v1
    ensures Sextet(v0 * 262144 + v1 * 4096 + v2 * 64 + v3, 2) == v2
    ensures Sextet(v0 * 262144 + v1 * 4096 + v2 * 64 + v3, 3) == v3
  {
    var n := v0 * 262144 + v1 * 4096 + v2 * 64 + v3;
    assert Sextet(n, 0) == v0 by {
      Euclid(n, 262144, v0, v1 * 4096 + v2 * 64 + v3);
      Euclid(v0, 64, 0, v0);
    }
    assert Sextet(n, 1) == v1 by {
      Euclid(n, 4096, v0 * 64 + v1, v2 * 64 + v3);
      Euclid(v0 * 64 + v1, 64, v0, v1);
    }
    assert Sextet(n, 2) == v2 by {
      Euclid(n, 64, v0 * 4096 + v1 * 64 + v2, v3);
      Euclid(v0 * 4096 + v1 * 64 + v2, 64, v0 * 64 + v1, v2);
    }
    assert Sextet(n, 3) == v3 by {
      Euclid(n, 64, v0 * 4096 + v1 * 64 + v2, v3);
    }
  }

  /** The quotient and remainder of a division by a power of two of the
      group layout are unique. */
  lemma Euclid(n: int, d: int, q: int, r: int)
    requires d in {64, 256, 4096, 65536, 262144}
    requires 0 <= r < d && n == q * d + r
    ensures n / d == q && n % d == r
  {
    if d == 64 {
    } else if d == 256 {
    } else if d == 4096 {
    } else if d == 65536 {
    } else {
    }
  }

  /** Conversely, encoding the decoded bytes of whole groups of alphabet
      characters gives those characters back. */
  lemma {:induction false} EncodeDecoded(src: string)
    requires |src| % 4 == 0
    requires forall i :: 0 <= i < |src| ==> IsBase64Char(src[i])
    ensures Encode(Decoded(src)) == src
    decreases |src|
  {
    if src != [] {
      var g, rest := src[..4], src[4..];
      var n := GroupAcc(g);
      var b := GroupBytes(n, 3);
      calc {
        Encode(Decoded(src));
        { assert src == g + rest; DecodedGroupThen(g, rest); DecodedWhole(g); }
        Encode(b + Decoded(rest));
        { EncodeFront(b, Decoded(rest)); }
        Quad(Num(b[0], b[1], b[2]), 4) + Encode(Decoded(rest));
        { GroupBytesOrder(n); NumOfBytes(n); }
        Quad(n, 4) + Encode(Decoded(rest));
        { GroupEncodes(g); EncodeDecoded(rest); }
        g + rest;
        { assert src == g + rest; }
        src;
      }
    }
  }

  lemma DecodedWhole(g: string)
    requires |g| == 4
    ensures Decoded(g) == GroupBytes(GroupAcc(g), 3)
  {
    assert g[..4] == g && g[4..] == [];
  }

  lemma EncodeFront(b: seq<byte>, rest: seq<byte>)
    requires |b| == 3
    ensures Encode(b + rest) == Quad(Num(b[0], b[1], b[2]), 4) + Encode(rest)
  {
    var bs := b + rest;
    assert bs[0] == b[0] && bs[1] == b[1] && bs[2] == b[2] && bs[3..] == rest;
  }

  /** A group of four alphabet characters is the encoding of its accumulator. */
  lemma GroupEncodes(g: string)
    requires |g| == 4
    requires forall i :: 0 <= i < |g| ==> IsBase64Char(g[i])
    ensures Quad(GroupAcc(g), 4) == g
  {
    var n := GroupAcc(g);
    SextetsOfAcc(g);
    QuadAt(n, 4);
    var q := Quad(n, 4);
    forall k | 0 <= k < 4 ensures q[k] == g[k] {
      AlphabetOfDecodeCode(g[k]);
    }
  }
}
