/** The mnemonic as arithmetic on one 132-bit number, and the reading of a line of words,
    independently of how the codec goes about it (src/cland/internal/bip39/bip39.go). */
module MnemonicRules {
  import opened Wrappers
  import opened Bip39
  import Text

  // ---------- numbers ----------

  lemma Quotient(n: nat, d: nat, q: nat, r: nat)
    requires n == d * q + r && r < d
    ensures n / d == q && n % d == r
  {
    var k := q - n / d;
    assert d * k == d * q - d * (n / d);
    assert n == d * (n / d) + n % d;
    if k >= 1 {
      assert d * k >= d * 1 by { Scaled(d, 1, k); }
    } else if k <= -1 {
      assert d * k <= d * -1 by { Scaled(d, k, -1); }
    }
  }

  lemma Scaled(d: nat, a: int, b: int)
    requires a <= b
    ensures d * a <= d * b
  {
    assert d * (b - a) == d * b - d * a;
  }

  lemma {:induction false} ValueConcat(a: seq<bool>, b: seq<bool>)
    ensures ValueOf(a + b) == Pow2(|b|) * ValueOf(a) + ValueOf(b)
  {
    if b == [] {
      assert a + b == a;
    } else {
      var t := b[..|b| - 1];
      ValueConcat(a, t);
      ConcatStep(a, b, ValueOf(a), ValueOf(t), Pow2(|t|));
    }
  }

  lemma ConcatStep(a: seq<bool>, b: seq<bool>, high: nat, low: nat, p: nat)
    requires b != [] && low == ValueOf(b[..|b| - 1]) && p == Pow2(|b| - 1)
    requires ValueOf(a + b[..|b| - 1]) == p * high + low
    ensures ValueOf(a + b) == Pow2(|b|) * high + ValueOf(b)
  {
    assert (a + b)[..|a + b| - 1] == a + b[..|b| - 1];
    Doubled(p, high);
    assert Pow2(|b|) == 2 * p;
  }

  lemma Doubled(x: nat, y: nat)
    ensures 2 * (x * y) == (2 * x) * y
  {
  }

  lemma SplitValue(bits: seq<bool>, j: nat)
    requires j <= |bits|
    ensures Pow2(|bits| - j) > 0
    ensures ValueOf(bits[..j]) == ValueOf(bits) / Pow2(|bits| - j)
    ensures ValueOf(bits[j..]) == ValueOf(bits) % Pow2(|bits| - j)
  {
    assert bits == bits[..j] + bits[j..];
    ValueConcat(bits[..j], bits[j..]);
    BitsOfValue(bits[j..]);
    Quotient(ValueOf(bits), Pow2(|bits| - j), ValueOf(bits[..j]), ValueOf(bits[j..]));
  }

  /** The window of bits from `i` up to `j`. */
  lemma Window(bits: seq<bool>, i: nat, j: nat)
    requires i <= j <= |bits|
    ensures Pow2(j - i) > 0 && Pow2(|bits| - j) > 0
    ensures ValueOf(bits[i..j]) == ValueOf(bits) / Pow2(|bits| - j) % Pow2(j - i)
  {
    SplitValue(bits, j);
    SplitValue(bits[..j], i);
    assert bits[..j][i..] == bits[i..j];
  }

  /** The bytes as one number, most significant first. */
  function BigEndian(bytes: seq<Byte>): nat {
    if bytes == [] then 0 else 256 * BigEndian(bytes[..|bytes| - 1]) + bytes[|bytes| - 1]
  }

  lemma {:induction false} SpreadIsBigEndian(bytes: seq<Byte>)
    ensures ValueOf(Spread(bytes, 8)) == BigEndian(bytes)
  {
    if bytes != [] {
      var t, b := bytes[..|bytes| - 1], bytes[|bytes| - 1];
      SpreadIsBigEndian(t);
      SpreadSnoc(t, b);
      Powers();
      ValueConcat(Spread(t, 8), Spread([b], 8));
      ByteValue(b);
      assert bytes == t + [b];
    }
  }

  lemma SpreadSnoc(bytes: seq<Byte>, b: Byte)
    ensures Spread(bytes + [b], 8) == Spread(bytes, 8) + Spread([b], 8)
  {
    var all := bytes + [b];
    forall i | 0 <= i < 8 * |all| ensures Spread(all, 8)[i] == (Spread(bytes, 8) + Spread([b], 8))[i] {
      if i < 8 * |bytes| {
        assert all[i / 8] == bytes[i / 8];
      } else {
        assert i / 8 == |bytes| && i % 8 == i - 8 * |bytes|;
      }
    }
  }

  lemma ByteValue(b: Byte)
    ensures |Spread([b], 8)| == 8 && ValueOf(Spread([b], 8)) == b
  {
    Powers();
    ValueOfBits(b, Spread([b], 8));
  }

  // ---------- the mnemonic ----------

  /** Seed and checksum as one number of 132 bits: the seed, then the top four bits of the
      first byte of its hash. */
  ghost function Number(cfg: Config, seed: seq<Byte>): nat
    requires Good(cfg)
  {
    16 * BigEndian(seed) + cfg.sha256(seed)[0] / 16
  }

  lemma BitsAreNumber(cfg: Config, seed: seq<Byte>)
    requires Good(cfg) && |seed| == SEED_BYTES
    ensures |AllBits(cfg, seed)| == TOTAL_BITS && ValueOf(AllBits(cfg, seed)) == Number(cfg, seed)
  {
    var hash := cfg.sha256(seed);
    var check := Spread(hash, 8)[..CHECKSUM_BITS];
    SpreadIsBigEndian(seed);
    ValueConcat(Spread(seed, 8), check);
    assert Pow2(4) == 16;
    TopBits(hash);
  }

  lemma TopBits(hash: seq<Byte>)
    requires |hash| == 32
    ensures ValueOf(Spread(hash, 8)[..CHECKSUM_BITS]) == hash[0] / 16
  {
    var first := Spread([hash[0]], 8);
    ByteValue(hash[0]);
    assert Spread(hash, 8)[..4] == first[..4];
    assert Pow2(4) == 16;
    SplitValue(first, 4);
  }

  /** The whole mnemonic, spelled: its words are the base-2048 digits of that number,
      twelve of them, most significant first, looked up in the list. */
  lemma MnemonicSpelled(cfg: Config, seed: seq<Byte>, w: nat)
    requires Good(cfg) && |seed| == SEED_BYTES && w < 12
    ensures |WordsOf(cfg, seed)| == 12 && Pow2(11 * (11 - w)) > 0
    ensures WordsOf(cfg, seed)[w] == cfg.words[Number(cfg, seed) / Pow2(11 * (11 - w)) % 2048]
    ensures Mnemonic(cfg, seed) == Text.Join(WordsOf(cfg, seed), ' ')
  {
    var bits := AllBits(cfg, seed);
    BitsAreNumber(cfg, seed);
    Window(bits, 11 * w, 11 * w + 11);
    Powers();
    WordAt(cfg, seed, w);
    assert |bits| - (11 * w + 11) == 11 * (11 - w);
  }

  // ---------- reading a mnemonic ----------

  /** A mnemonic decodes to a seed exactly when its words, as read, are that seed's. */
  lemma DecodesSpelled(cfg: Config, mnemonic: string, seed: seq<Byte>)
    requires Good(cfg)
    ensures Decodes(cfg, mnemonic, Ok(seed))
            <==> |seed| == SEED_BYTES && Normalized(cfg, mnemonic) == WordsOf(cfg, seed)
  {
    if Decodes(cfg, mnemonic, Ok(seed)) {
      var idx :| Indexes(cfg, Normalized(cfg, mnemonic), idx) && Spread(idx, 11) == AllBits(cfg, seed);
      Powers();
      GroupSpread(idx, 11);
      assert WordsOf(cfg, seed) == Normalized(cfg, mnemonic);
    }
    if |seed| == SEED_BYTES && Normalized(cfg, mnemonic) == WordsOf(cfg, seed) { WordsSpellBits(cfg, seed); }
  }

  /** And it has one outcome, whatever that is: the seed, or the one reason there is none. */
  lemma OneOutcome(cfg: Config, mnemonic: string, r: Result<seq<Byte>, DecodeError>, q: Result<seq<Byte>, DecodeError>)
    requires Good(cfg) && Decodes(cfg, mnemonic, r) && Decodes(cfg, mnemonic, q)
    ensures r == q
  {
    if r.Ok? {
      DecodingUnique(cfg, mnemonic, r.value, q);
    } else if q.Ok? {
      DecodingUnique(cfg, mnemonic, q.value, r);
    } else {
      var words := Normalized(cfg, mnemonic);
      if r.error.Checksum? { KnownWords(cfg, mnemonic); }
      if q.error.Checksum? { KnownWords(cfg, mnemonic); }
    }
  }

  lemma KnownWords(cfg: Config, mnemonic: string)
    requires Good(cfg) && Decodes(cfg, mnemonic, Err(Checksum))
    ensures forall w :: w in Normalized(cfg, mnemonic) ==> w in cfg.words
  {
    var words := Normalized(cfg, mnemonic);
    var idx, seed: seq<Byte> :| Indexes(cfg, words, idx) && |seed| == SEED_BYTES
      && Spread(idx, 11)[..SEED_BITS] == Spread(seed, 8) && Spread(idx, 11) != AllBits(cfg, seed);
    forall w | w in words ensures w in cfg.words {
      var i :| 0 <= i < |words| && words[i] == w;
      assert cfg.words[idx[i]] == w;
    }
  }

  /** White space, by code point. */
  lemma SpaceSpelled(c: char)
    ensures IsSpace(c)
            <==> var u := c as int;
                 9 <= u <= 13 || u in {32, 133, 160, 5760, 8232, 8233, 8239, 8287, 12288} || 8192 <= u <= 8202
  {
  }

  /** Trimming takes the white space off both ends and nothing else. */
  lemma TrimSpelled(s: string) returns (i: nat, j: nat)
    ensures i <= j <= |s| && TrimRight(TrimLeft(s)) == s[i..j]
    ensures (forall k :: 0 <= k < i || j <= k < |s| ==> IsSpace(s[k]))
    ensures i < j ==> !IsSpace(s[i]) && !IsSpace(s[j - 1])
  {
    i := LeftTrimmed(s);
    j := RightTrimmed(s[i..]);
    assert s[i..][..j] == s[i..i + j];
    forall k | i + j <= k < |s| ensures IsSpace(s[k]) { assert s[i..][k - i] == s[k]; }
    j := i + j;
  }

  lemma {:induction false} LeftTrimmed(s: string) returns (i: nat)
    ensures i <= |s| && TrimLeft(s) == s[i..] && (forall k :: 0 <= k < i ==> IsSpace(s[k]))
    ensures i < |s| ==> !IsSpace(s[i])
  {
    i := 0;
    if s != [] && IsSpace(s[0]) {
      i := LeftTrimmed(s[1..]);
      assert s[1..][i..] == s[i + 1..];
      forall k | 0 < k < i + 1 ensures IsSpace(s[k]) { assert s[1..][k - 1] == s[k]; }
      i := i + 1;
    }
  }

  lemma {:induction false} RightTrimmed(s: string) returns (j: nat)
    ensures j <= |s| && TrimRight(s) == s[..j] && (forall k :: j <= k < |s| ==> IsSpace(s[k]))
    ensures j > 0 ==> !IsSpace(s[j - 1])
  {
    j := |s|;
    if s != [] && IsSpace(s[|s| - 1]) {
      j := RightTrimmed(s[..|s| - 1]);
      assert s[..|s| - 1][..j] == s[..j];
      forall k | j <= k < |s| - 1 ensures IsSpace(s[k]) { assert s[..|s| - 1][k] == s[k]; }
    }
  }

  /** Words are what white space separates: a line splits at any of it, a word without it
      is one word, and the empty line has none. */
  lemma {:induction false} FieldsSpelled(a: string, c: char, b: string)
    ensures IsSpace(c) ==> Fields(a + [c] + b) == Fields(a) + Fields(b)
    ensures (forall x :: x in a ==> !IsSpace(x)) ==> Fields(a) == if a == "" then [] else [a]
  {
    if forall x :: x in a ==> !IsSpace(x) { OneWord(a); }
    if IsSpace(c) { FieldsSplit(a, c, b); }
  }

  lemma OneWord(a: string)
    requires forall x :: x in a ==> !IsSpace(x)
    ensures Fields(a) == if a == "" then [] else [a]
  {
    if a != "" {
      assert a[0] in a && a + [] == a;
      WordLengthStops(a, []);
    }
  }

  lemma {:induction false} FieldsSplit(a: string, c: char, b: string)
    requires IsSpace(c)
    ensures Fields(a + [c] + b) == Fields(a) + Fields(b)
    decreases |a|
  {
    var s := a + [c] + b;
    if a == "" {
      assert s == [c] + b && s[1..] == b;
      assert Fields(a) == [];
    } else if IsSpace(a[0]) {
      assert s[1..] == a[1..] + [c] + b;
      FieldsSplit(a[1..], c, b);
    } else {
      var n := WordLength(a);
      WordEnds(a);
      var rest := a[n..] + [c] + b;
      assert s == a[..n] + rest;
      assert rest[0] == if n < |a| then a[n] else c;
      WordLengthStops(a[..n], rest);
      assert s[..n] == a[..n] && s[n..] == rest;
      FieldsSplit(a[n..], c, b);
      assert [a[..n]] + (Fields(a[n..]) + Fields(b)) == ([a[..n]] + Fields(a[n..])) + Fields(b);
    }
  }

  lemma {:induction false} WordEnds(s: string)
    ensures var n := WordLength(s);
            && (forall x :: x in s[..n] ==> !IsSpace(x)) && (n < |s| ==> IsSpace(s[n]))
            && (s != "" && !IsSpace(s[0]) ==> n > 0)
  {
    if s != "" && !IsSpace(s[0]) {
      WordEnds(s[1..]);
      var n := WordLength(s);
      assert s[..n] == [s[0]] + s[1..][..n - 1];
    }
  }
}
