/** Twelve-word mnemonics for 16-byte seeds, as in the section "Generating the mnemonic"
    of BIP-39 (src/cland/internal/bip39/bip39.go). */
module Bip39 {
  import opened Wrappers
  import Text

  const SEED_BYTES: nat := 16
  const SEED_BITS: nat := 128
  const CHECKSUM_BITS: nat := 4
  const TOTAL_BITS: nat := 132
  const MNEMONIC_WORDS: nat := 12

  type Byte = b: nat | b < 256

  // ---------- numbers and bits, most significant first ----------

  function Pow2(k: nat): nat { if k == 0 then 1 else 2 * Pow2(k - 1) }

  /** `n >> s`. */
  function Shr(n: nat, s: nat): nat { if s == 0 then n else Shr(n / 2, s - 1) }

  /** `n | 1 << p`. */
  function WithBit(n: nat, p: nat): nat { if Shr(n, p) % 2 == 1 then n else n + Pow2(p) }

  /** `bit(i)` of a `k`-bit number. */
  predicate BitOf(n: nat, k: nat, i: nat)
    requires i < k
  {
    Shr(n, k - 1 - i) % 2 == 1
  }

  function Bit(b: bool): nat { if b then 1 else 0 }

  function ValueOf(bits: seq<bool>): nat {
    if bits == [] then 0 else 2 * ValueOf(bits[..|bits| - 1]) + Bit(bits[|bits| - 1])
  }

  /** The numbers written out as `k` bits each, one after the other. */
  function Spread(vals: seq<nat>, k: nat): seq<bool>
    requires k == 8 || k == 11
  {
    seq(k * |vals|, i requires 0 <= i < k * |vals| => BitOf(vals[i / k], k, i % k))
  }

  /** The bits read back `k` at a time. */
  function Group(bits: seq<bool>, k: nat): seq<nat>
    requires (k == 8 || k == 11) && |bits| % k == 0
  {
    seq(|bits| / k, j requires 0 <= j < |bits| / k => ValueOf(bits[k * j..k * j + k]))
  }

  lemma {:induction false} ValueOfBits(n: nat, bits: seq<bool>)
    requires n < Pow2(|bits|) && forall i :: 0 <= i < |bits| ==> bits[i] == BitOf(n, |bits|, i)
    ensures ValueOf(bits) == n
  {
    if bits != [] {
      var t := bits[..|bits| - 1];
      forall i | 0 <= i < |t| ensures t[i] == BitOf(n / 2, |t|, i) {
        assert bits[i] == BitOf(n, |bits|, i);
      }
      ValueOfBits(n / 2, t);
      assert bits[|t|] == BitOf(n, |bits|, |t|);
    }
  }

  lemma {:induction false} BitsOfValue(bits: seq<bool>)
    ensures ValueOf(bits) < Pow2(|bits|)
    ensures forall i :: 0 <= i < |bits| ==> bits[i] == BitOf(ValueOf(bits), |bits|, i)
  {
    if bits != [] {
      var t := bits[..|bits| - 1];
      BitsOfValue(t);
      assert ValueOf(bits) / 2 == ValueOf(t);
      forall i | 0 <= i < |bits| ensures bits[i] == BitOf(ValueOf(bits), |bits|, i) {
        if i < |t| { assert t[i] == BitOf(ValueOf(t), |t|, i); }
      }
    }
  }

  lemma Position(k: nat, j: nat, i: nat, n: nat)
    requires (k == 8 || k == 11) && i < k
    ensures (k * j + i) / k == j && (k * j + i) % k == i
    ensures j < n ==> k * j + k <= k * n
  {
    if k == 8 {
      assert (8 * j + i) / 8 == j && (8 * j + i) % 8 == i;
    } else {
      assert (11 * j + i) / 11 == j && (11 * j + i) % 11 == i;
    }
  }

  lemma Located(k: nat, i: nat, n: nat)
    requires (k == 8 || k == 11) && i < k * n
    ensures i / k < n && i == k * (i / k) + i % k && k * (i / k) + k <= k * n
  {
    if k == 8 {
      assert i == 8 * (i / 8) + i % 8;
    } else {
      assert i == 11 * (i / 11) + i % 11;
    }
  }

  /** The `j`th chunk of a spread is the `j`th number, bit by bit. */
  lemma ChunkOfSpread(vals: seq<nat>, k: nat, j: nat)
    requires (k == 8 || k == 11) && j < |vals|
    ensures k * j + k <= |Spread(vals, k)|
    ensures forall i :: 0 <= i < k ==> Spread(vals, k)[k * j..k * j + k][i] == BitOf(vals[j], k, i)
  {
    Position(k, j, 0, |vals|);
    forall i | 0 <= i < k ensures Spread(vals, k)[k * j..k * j + k][i] == BitOf(vals[j], k, i) {
      Position(k, j, i, |vals|);
      assert Spread(vals, k)[k * j..k * j + k][i] == Spread(vals, k)[k * j + i];
    }
  }

  lemma GroupSpread(vals: seq<nat>, k: nat)
    requires (k == 8 || k == 11) && forall v :: v in vals ==> v < Pow2(k)
    ensures |Spread(vals, k)| % k == 0 && Group(Spread(vals, k), k) == vals
  {
    Position(k, |vals|, 0, 0);
    forall j | 0 <= j < |vals| ensures Group(Spread(vals, k), k)[j] == vals[j] {
      assert vals[j] in vals;
      ChunkValue(vals, k, j);
    }
  }

  lemma ChunkValue(vals: seq<nat>, k: nat, j: nat)
    requires (k == 8 || k == 11) && j < |vals| && vals[j] < Pow2(k)
    ensures k * j + k <= |Spread(vals, k)| && ValueOf(Spread(vals, k)[k * j..k * j + k]) == vals[j]
  {
    ChunkOfSpread(vals, k, j);
    ValueOfBits(vals[j], Spread(vals, k)[k * j..k * j + k]);
  }

  lemma SpreadGroup(bits: seq<bool>, k: nat)
    requires (k == 8 || k == 11) && |bits| % k == 0
    ensures Spread(Group(bits, k), k) == bits
    ensures forall v :: v in Group(bits, k) ==> v < Pow2(k)
  {
    var vals := Group(bits, k);
    assert |bits| == k * |vals|;
    forall j | 0 <= j < |vals| ensures vals[j] < Pow2(k) {
      Position(k, j, 0, |vals|);
      BitsOfValue(bits[k * j..k * j + k]);
    }
    forall i | 0 <= i < |bits| ensures Spread(vals, k)[i] == bits[i] { SpreadGroupAt(bits, k, i); }
  }

  lemma SpreadGroupAt(bits: seq<bool>, k: nat, i: nat)
    requires (k == 8 || k == 11) && |bits| % k == 0 && i < |bits|
    ensures i < k * |Group(bits, k)| && Spread(Group(bits, k), k)[i] == bits[i]
  {
    assert |bits| == k * (|bits| / k);
    Located(k, i, |bits| / k);
    BitOfChunk(bits, k, i / k, i % k);
  }

  lemma BitOfChunk(bits: seq<bool>, k: nat, j: nat, i: nat)
    requires i < k && k * j + k <= |bits|
    ensures BitOf(ValueOf(bits[k * j..k * j + k]), k, i) == bits[k * j + i]
  {
    var chunk := bits[k * j..k * j + k];
    BitsOfValue(chunk);
    assert chunk[i] == bits[k * j + i];
  }

  lemma Powers()
    ensures Pow2(8) == 256 && Pow2(11) == 2048
  {
    assert Pow2(4) == 16;
    assert Pow2(8) == 256;
  }

  lemma {:induction false} ShrOfShifted(x: nat, p: nat)
    ensures Shr(x * Pow2(p), p) == x
  {
    if p > 0 {
      assert x * Pow2(p) == 2 * (x * Pow2(p - 1));
      ShrOfShifted(x, p - 1);
    }
  }

  // ---------- words in a line ----------

  /** Unicode white space, as `strings.Fields` and `strings.TrimSpace` see it. */
  predicate IsSpace(c: char) {
    c in {'\t', '\n', '\U{0B}', '\U{0C}', '\r', ' ', '\U{85}', '\U{A0}', '\U{1680}', '\U{2028}', '\U{2029}', '\U{202F}',
          '\U{205F}', '\U{3000}'}
    || '\U{2000}' <= c <= '\U{200A}'
  }

  function WordLength(s: string): (n: nat)
    ensures n <= |s|
  {
    if s == [] || IsSpace(s[0]) then 0 else 1 + WordLength(s[1..])
  }

  function Fields(s: string): seq<string> {
    if s == [] then []
    else if IsSpace(s[0]) then Fields(s[1..])
    else [s[..WordLength(s)]] + Fields(s[WordLength(s)..])
  }

  function TrimLeft(s: string): string {
    if s != [] && IsSpace(s[0]) then TrimLeft(s[1..]) else s
  }

  function TrimRight(s: string): string {
    if s != [] && IsSpace(s[|s| - 1]) then TrimRight(s[..|s| - 1]) else s
  }

  function Lower(lower: char -> char, s: string): string { seq(|s|, i requires 0 <= i < |s| => lower(s[i])) }

  ghost predicate Word(w: string) { w != "" && forall c :: c in w ==> 'a' <= c <= 'z' }

  lemma {:induction false} WordLengthStops(w: string, rest: string)
    requires (forall c :: c in w ==> !IsSpace(c)) && (rest == [] || IsSpace(rest[0]))
    ensures WordLength(w + rest) == |w|
  {
    if w == [] {
      assert w + rest == rest;
    } else {
      assert w[0] in w && (w + rest)[1..] == w[1..] + rest;
      assert forall c :: c in w[1..] ==> c in w;
      WordLengthStops(w[1..], rest);
    }
  }

  lemma {:induction false} FieldsOfJoin(words: seq<string>)
    requires forall w :: w in words ==> Word(w)
    ensures Fields(Text.Join(words, ' ')) == words
  {
    if words != [] {
      var w, rest := words[0], words[1..];
      assert w in words && w[0] in w && forall c :: c in w ==> !IsSpace(c);
      if rest == [] {
        assert w + [] == w;
        WordLengthStops(w, []);
        assert words == [w];
      } else {
        var tail := [' '] + Text.Join(rest, ' ');
        assert Text.Join(words, ' ') == w + tail;
        WordLengthStops(w, tail);
        assert (w + tail)[..|w|] == w && (w + tail)[|w|..] == tail && tail[1..] == Text.Join(rest, ' ');
        assert forall x :: x in rest ==> x in words;
        FieldsOfJoin(rest);
        assert words == [w] + rest;
      }
    }
  }

  /** A line of words is trimmed and lowercased already. */
  lemma {:induction false} JoinedIsNormal(words: seq<string>, lower: char -> char)
    requires forall w :: w in words ==> Word(w)
    requires lower(' ') == ' ' && forall c :: 'a' <= c <= 'z' ==> lower(c) == c
    ensures var s := Text.Join(words, ' ');
            && Lower(lower, s) == s
            && (words != [] ==> s != [] && !IsSpace(s[0]) && !IsSpace(s[|s| - 1]))
  {
    if words != [] {
      var w, s := words[0], Text.Join(words, ' ');
      assert w in words && w[0] in w && w[|w| - 1] in w;
      if |words| > 1 {
        assert forall x :: x in words[1..] ==> x in words;
        JoinedIsNormal(words[1..], lower);
        var tail := Text.Join(words[1..], ' ');
        assert s == w + [' '] + tail;
        forall i | 0 <= i < |s| ensures lower(s[i]) == s[i] {
          if i < |w| { assert s[i] in w; } else if i > |w| { assert s[i] == tail[i - |w| - 1] == Lower(lower, tail)[i - |w| - 1]; }
        }
      } else {
        forall i | 0 <= i < |s| ensures lower(s[i]) == s[i] { assert s[i] in w; }
      }
    }
  }

  // ---------- the codec ----------

  /** The word list, the seed hash and Unicode lowercasing. */
  datatype Config = Config(words: seq<string>, sha256: seq<Byte> -> seq<Byte>, lower: char -> char)

  ghost predicate Good(cfg: Config) {
    && |cfg.words| == 2048
    && (forall w :: w in cfg.words ==> Word(w))
    && (forall i, j :: 0 <= i < j < |cfg.words| ==> cfg.words[i] != cfg.words[j])
    && (forall s :: |cfg.sha256(s)| == 32)
    && cfg.lower(' ') == ' ' && (forall c :: 'a' <= c <= 'z' ==> cfg.lower(c) == c)
  }

  /** Seed bits, then the first bits of the seed's hash. */
  function AllBits(cfg: Config, seed: seq<Byte>): seq<bool>
    requires |cfg.sha256(seed)| == 32
  {
    Spread(seed, 8) + Spread(cfg.sha256(seed), 8)[..CHECKSUM_BITS]
  }

  /** The seed bits spell twelve positions of the word list. */
  lemma IndexesInRange(cfg: Config, seed: seq<Byte>)
    requires Good(cfg) && |seed| == SEED_BYTES
    ensures |AllBits(cfg, seed)| == TOTAL_BITS && |Group(AllBits(cfg, seed), 11)| == MNEMONIC_WORDS
    ensures forall w :: 0 <= w < MNEMONIC_WORDS ==> Group(AllBits(cfg, seed), 11)[w] < |cfg.words|
  {
    var bits := AllBits(cfg, seed);
    forall w | 0 <= w < MNEMONIC_WORDS ensures Group(bits, 11)[w] < |cfg.words| {
      IndexInRange(bits[11 * w..11 * w + 11]);
    }
  }

  ghost function WordsOf(cfg: Config, seed: seq<Byte>): (ws: seq<string>)
    requires Good(cfg) && |seed| == SEED_BYTES
    ensures |ws| == MNEMONIC_WORDS && forall w :: w in ws ==> w in cfg.words
  {
    IndexesInRange(cfg, seed);
    var idx := Group(AllBits(cfg, seed), 11);
    seq(MNEMONIC_WORDS, w requires 0 <= w < MNEMONIC_WORDS => cfg.words[idx[w]])
  }

  lemma WordAt(cfg: Config, seed: seq<Byte>, w: nat)
    requires Good(cfg) && |seed| == SEED_BYTES && w < MNEMONIC_WORDS
    ensures var idx := ValueOf(AllBits(cfg, seed)[11 * w..11 * w + 11]);
            idx < |cfg.words| && WordsOf(cfg, seed)[w] == cfg.words[idx]
  {
    IndexInRange(AllBits(cfg, seed)[11 * w..11 * w + 11]);
  }

  ghost function Mnemonic(cfg: Config, seed: seq<Byte>): string
    requires Good(cfg) && |seed| == SEED_BYTES
  {
    Text.Join(WordsOf(cfg, seed), ' ')
  }

  datatype DecodeError = WordCount | UnknownWord(position: nat) | Checksum

  function Normalized(cfg: Config, mnemonic: string): seq<string> {
    Fields(Lower(cfg.lower, TrimRight(TrimLeft(mnemonic))))
  }

  /** Where a word is in the list. */
  ghost predicate Indexes(cfg: Config, words: seq<string>, idx: seq<nat>) {
    |idx| == |words| && forall i :: 0 <= i < |idx| ==> idx[i] < |cfg.words| && cfg.words[idx[i]] == words[i]
  }

  /** What decoding promises: the seed whose bits the words spell, or the first reason
      there is none. */
  ghost predicate Decodes(cfg: Config, mnemonic: string, r: Result<seq<Byte>, DecodeError>)
    requires Good(cfg)
  {
    var words := Normalized(cfg, mnemonic);
    match r
    case Ok(seed) =>
      && |words| == MNEMONIC_WORDS && |seed| == SEED_BYTES
      && exists idx :: Indexes(cfg, words, idx) && Spread(idx, 11) == AllBits(cfg, seed)
    case Err(WordCount) => |words| != MNEMONIC_WORDS
    case Err(UnknownWord(p)) =>
      && |words| == MNEMONIC_WORDS && 0 < p <= |words| && words[p - 1] !in cfg.words
      && forall i :: 0 <= i < p - 1 ==> words[i] in cfg.words
    case Err(Checksum) =>
      && |words| == MNEMONIC_WORDS
      && exists idx, seed: seq<Byte> :: Indexes(cfg, words, idx) && |seed| == SEED_BYTES
            && Spread(idx, 11)[..SEED_BITS] == Spread(seed, 8) && Spread(idx, 11) != AllBits(cfg, seed)
  }

  class Codec {
    const cfg: Config
    const index: map<string, nat>

    ghost predicate Valid() {
      && Good(cfg)
      && index.Keys == (set w | w in cfg.words)
      && forall w :: w in index ==> index[w] < |cfg.words| && cfg.words[index[w]] == w
    }

    constructor (cfg: Config)
      requires Good(cfg)
      ensures Valid() && this.cfg == cfg
    {
      this.cfg := cfg;
      var m: map<string, nat> := map[];
      for i := 0 to |cfg.words|
        invariant m.Keys == set w | w in cfg.words[..i]
        invariant forall w :: w in m ==> m[w] < |cfg.words| && cfg.words[m[w]] == w
      {
        assert cfg.words[..i + 1] == cfg.words[..i] + [cfg.words[i]];
        m := m[cfg.words[i] := i];
      }
      assert cfg.words[..|cfg.words|] == cfg.words;
      index := m;
    }

    method MnemonicFromSeed(seed: seq<Byte>) returns (r: Result<string, nat>)
      requires Valid()
      ensures |seed| != SEED_BYTES ==> r == Err(|seed|)
      ensures |seed| == SEED_BYTES ==> r == Ok(Mnemonic(cfg, seed))
    {
      if |seed| != SEED_BYTES { return Err(|seed|); }
      var bits := BitString(seed, cfg.sha256(seed));
      assert bits == AllBits(cfg, seed);
      var words: seq<string> := [];
      for w := 0 to MNEMONIC_WORDS
        invariant |words| == w && forall k :: 0 <= k < w ==> words[k] == WordsOf(cfg, seed)[k]
      {
        var idx := WordIndex(bits, w);
        IndexInRange(bits[11 * w..11 * w + 11]);
        WordAt(cfg, seed, w);
        words := words + [cfg.words[idx]];
      }
      assert words == WordsOf(cfg, seed);
      r := Ok(Text.Join(words, ' '));
    }

    static method WordIndex(bits: seq<bool>, w: nat) returns (idx: nat)
      requires |bits| == TOTAL_BITS && w < MNEMONIC_WORDS
      ensures idx == ValueOf(bits[11 * w..11 * w + 11])
    {
      idx := 0;
      for b := 0 to 11
        invariant idx == ValueOf(bits[11 * w..11 * w + b])
      {
        assert bits[11 * w..11 * w + b + 1][..b] == bits[11 * w..11 * w + b];
        idx := idx * 2 + Bit(bits[11 * w + b]);
      }
    }

    /** Entropy bits, then checksum bits, in one buffer. */
    static method BitString(seed: seq<Byte>, hash: seq<Byte>) returns (bits: seq<bool>)
      requires |seed| == SEED_BYTES && |hash| == 32
      ensures bits == Spread(seed, 8) + Spread(hash, 8)[..CHECKSUM_BITS]
    {
      var buffer := new bool[TOTAL_BITS];
      for i := 0 to SEED_BITS
        invariant forall k :: 0 <= k < i ==> buffer[k] == Spread(seed, 8)[k]
      {
        buffer[i] := BitOf(seed[i / 8], 8, i % 8);
      }
      for i := 0 to CHECKSUM_BITS
        invariant forall k :: 0 <= k < SEED_BITS ==> buffer[k] == Spread(seed, 8)[k]
        invariant forall k :: 0 <= k < i ==> buffer[SEED_BITS + k] == Spread(hash, 8)[k]
      {
        buffer[SEED_BITS + i] := BitOf(hash[i / 8], 8, i % 8);
      }
      bits := buffer[..];
    }

    method SeedFromMnemonic(mnemonic: string) returns (r: Result<seq<Byte>, DecodeError>)
      requires Valid()
      ensures Decodes(cfg, mnemonic, r)
    {
      var words := Normalized(cfg, mnemonic);
      if |words| != MNEMONIC_WORDS { return Err(WordCount); }
      var bad, bits, idx := WordBits(words);
      if bad != 0 { return Err(UnknownWord(bad)); }
      var seed := PackSeed(bits[..SEED_BITS]);
      var hash := cfg.sha256(seed);
      for i := 0 to CHECKSUM_BITS
        invariant forall k :: 0 <= k < i ==> bits[SEED_BITS + k] == Spread(hash, 8)[k]
      {
        var want := BitOf(hash[i / 8], 8, i % 8);
        if want != bits[SEED_BITS + i] {
          assert bits[SEED_BITS + i] != AllBits(cfg, seed)[SEED_BITS + i];
          return Err(Checksum);
        }
      }
      assert bits == AllBits(cfg, seed) by {
        assert bits == bits[..SEED_BITS] + bits[SEED_BITS..];
        assert bits[SEED_BITS..] == Spread(hash, 8)[..CHECKSUM_BITS];
      }
      r := Ok(seed);
    }

    /** Splats each word's index; `bad` is the position of the first unknown word. */
    method WordBits(words: seq<string>) returns (bad: nat, bits: seq<bool>, ghost idx: seq<nat>)
      requires Valid() && |words| == MNEMONIC_WORDS
      ensures bad == 0 ==> Indexes(cfg, words, idx) && bits == Spread(idx, 11) && |bits| == TOTAL_BITS
      ensures bad > 0 ==> bad <= |words| && words[bad - 1] !in cfg.words
                          && forall i :: 0 <= i < bad - 1 ==> words[i] in cfg.words
    {
      var buffer := new bool[TOTAL_BITS];
      idx := [];
      for w := 0 to MNEMONIC_WORDS
        invariant |idx| == w && Indexes(cfg, words[..w], idx)
        invariant buffer[..11 * w] == Spread(idx, 11)
        invariant forall k :: 0 <= k < w ==> words[k] in cfg.words
      {
        if words[w] !in index { return w + 1, [], []; }
        var n := index[words[w]];
        SplatWord(buffer, w, n);
        SpreadAppend(idx, n, buffer[..11 * w + 11]);
        idx := idx + [n];
      }
      assert words[..MNEMONIC_WORDS] == words;
      bad, bits := 0, buffer[..];
    }

    static method SplatWord(buffer: array<bool>, w: nat, n: nat)
      requires buffer.Length == TOTAL_BITS && w < MNEMONIC_WORDS
      modifies buffer
      ensures buffer[..11 * w] == old(buffer[..11 * w])
      ensures forall k :: 0 <= k < 11 ==> buffer[11 * w + k] == BitOf(n, 11, k)
    {
      for b := 0 to 11
        invariant buffer[..11 * w] == old(buffer[..11 * w])
        invariant forall k :: 0 <= k < b ==> buffer[11 * w + k] == BitOf(n, 11, k)
      {
        buffer[11 * w + b] := Shr(n, 10 - b) % 2 == 1;
      }
    }

    /** Sets the seed's bits one by one in a zeroed buffer. */
    static method PackSeed(bits: seq<bool>) returns (seed: seq<Byte>)
      requires |bits| == SEED_BITS
      ensures |seed| == SEED_BYTES && Spread(seed, 8) == bits
    {
      var buffer := new nat[SEED_BYTES](_ => 0);
      for i := 0 to SEED_BITS
        invariant Packed(buffer[..], bits, i)
      {
        var before := buffer[..];
        if bits[i] { buffer[i / 8] := WithBit(buffer[i / 8], 7 - i % 8); }
        PackedStep(before, bits, i);
        assert buffer[..] == if bits[i] then before[i / 8 := WithBit(before[i / 8], 7 - i % 8)] else before;
      }
      SpreadGroup(bits, 8);
      Powers();
      assert buffer[..] == Group(bits, 8);
      assert forall j :: 0 <= j < SEED_BYTES ==> buffer[..][j] in Group(bits, 8);
      seed := buffer[..];
    }
  }

  /** The buffer after the first `i` bits: whole bytes, one byte under way, zeros. */
  ghost predicate Packed(buffer: seq<nat>, bits: seq<bool>, i: nat)
    requires |bits| == SEED_BITS
  {
    && |buffer| == SEED_BYTES && i <= SEED_BITS
    && (forall j :: 0 <= j < i / 8 ==> buffer[j] == Group(bits, 8)[j])
    && (i < SEED_BITS ==> buffer[i / 8] == Partial(Chunk(bits, i / 8), i % 8))
    && (forall j :: i / 8 < j < SEED_BYTES ==> buffer[j] == 0)
  }

  lemma PackedStep(buffer: seq<nat>, bits: seq<bool>, i: nat)
    requires |bits| == SEED_BITS && i < SEED_BITS && Packed(buffer, bits, i)
    ensures Packed(if bits[i] then buffer[i / 8 := WithBit(buffer[i / 8], 7 - i % 8)] else buffer, bits, i + 1)
  {
    var j, c := i / 8, i % 8;
    PartialStep(Chunk(bits, j), c);
    assert Chunk(bits, j)[c] == bits[i];
    if c == 7 {
      PartialEnds(bits, j);
      assert (i + 1) / 8 == j + 1 && (i + 1) % 8 == 0;
    } else {
      assert (i + 1) / 8 == j && (i + 1) % 8 == c + 1;
    }
  }

  function Chunk(bits: seq<bool>, j: nat): seq<bool>
    requires 8 * j + 8 <= |bits|
  {
    bits[8 * j..8 * j + 8]
  }

  lemma PartialEnds(bits: seq<bool>, j: nat)
    requires |bits| == SEED_BITS && j < SEED_BYTES
    ensures Partial(Chunk(bits, j), 8) == Group(bits, 8)[j]
    ensures j + 1 < SEED_BYTES ==> Partial(Chunk(bits, j + 1), 0) == 0
  {
    assert Chunk(bits, j)[..8] == Chunk(bits, j);
  }

  /** A byte of which the first `c` bits have been set. */
  function Partial(bits: seq<bool>, c: nat): nat
    requires |bits| == 8 && c <= 8
  {
    ValueOf(bits[..c]) * Pow2(8 - c)
  }

  lemma PartialStep(bits: seq<bool>, c: nat)
    requires |bits| == 8 && c < 8
    ensures Partial(bits, c + 1) == if bits[c] then WithBit(Partial(bits, c), 7 - c) else Partial(bits, c)
  {
    var v, p := ValueOf(bits[..c]), 7 - c;
    assert bits[..c + 1][..c] == bits[..c];
    assert Pow2(8 - c) == 2 * Pow2(p);
    assert v * Pow2(8 - c) == (2 * v) * Pow2(p);
    ShrOfShifted(2 * v, p);
    assert (2 * v + 1) * Pow2(p) == (2 * v) * Pow2(p) + Pow2(p);
  }

  lemma IndexInRange(bits: seq<bool>)
    requires |bits| == 11
    ensures ValueOf(bits) < 2048
  {
    BitsOfValue(bits);
    Powers();
  }

  lemma SpreadAppend(idx: seq<nat>, n: nat, bits: seq<bool>)
    requires |bits| == 11 * |idx| + 11 && bits[..11 * |idx|] == Spread(idx, 11)
    requires forall k :: 0 <= k < 11 ==> bits[11 * |idx| + k] == BitOf(n, 11, k)
    ensures bits == Spread(idx + [n], 11)
  {
    forall i | 0 <= i < |bits| ensures bits[i] == Spread(idx + [n], 11)[i] {
      Located(11, i, |idx| + 1);
      if i < 11 * |idx| { assert bits[i] == Spread(idx, 11)[i]; }
    }
  }

  // ---------- round trips ----------

  lemma NormalizedMnemonic(cfg: Config, seed: seq<Byte>)
    requires Good(cfg) && |seed| == SEED_BYTES
    ensures Normalized(cfg, Mnemonic(cfg, seed)) == WordsOf(cfg, seed)
  {
    var ws := WordsOf(cfg, seed);
    JoinedIsNormal(ws, cfg.lower);
    FieldsOfJoin(ws);
  }

  /** A mnemonic decodes in one way only. */
  lemma DecodingUnique(cfg: Config, mnemonic: string, seed: seq<Byte>, r: Result<seq<Byte>, DecodeError>)
    requires Good(cfg) && Decodes(cfg, mnemonic, Ok(seed)) && Decodes(cfg, mnemonic, r)
    ensures r == Ok(seed)
  {
    var words := Normalized(cfg, mnemonic);
    var idx :| Indexes(cfg, words, idx) && Spread(idx, 11) == AllBits(cfg, seed);
    SeedBitsFirst(cfg, seed);
    match r
    case Ok(other) =>
      var jdx :| Indexes(cfg, words, jdx) && Spread(jdx, 11) == AllBits(cfg, other);
      SameIndexes(cfg, words, idx, jdx);
      SeedBitsFirst(cfg, other);
      SeedFromBits(seed, other);
    case Err(UnknownWord(p)) =>
    case Err(Checksum) =>
      var jdx, other: seq<Byte> :| Indexes(cfg, words, jdx) && |other| == SEED_BYTES
        && Spread(jdx, 11)[..SEED_BITS] == Spread(other, 8) && Spread(jdx, 11) != AllBits(cfg, other);
      SameIndexes(cfg, words, idx, jdx);
      SeedFromBits(seed, other);
    case Err(WordCount) =>
  }

  lemma SeedBitsFirst(cfg: Config, seed: seq<Byte>)
    requires Good(cfg) && |seed| == SEED_BYTES
    ensures AllBits(cfg, seed)[..SEED_BITS] == Spread(seed, 8)
  {
  }

  lemma SeedFromBits(a: seq<Byte>, b: seq<Byte>)
    requires Spread(a, 8) == Spread(b, 8)
    ensures a == b
  {
    Powers();
    GroupSpread(a, 8);
    GroupSpread(b, 8);
  }

  lemma SameIndexes(cfg: Config, words: seq<string>, idx: seq<nat>, jdx: seq<nat>)
    requires Good(cfg) && Indexes(cfg, words, idx) && Indexes(cfg, words, jdx)
    ensures idx == jdx
  {
    forall i | 0 <= i < |idx| ensures idx[i] == jdx[i] {
      assert cfg.words[idx[i]] == cfg.words[jdx[i]];
    }
  }

  lemma WordsSpellBits(cfg: Config, seed: seq<Byte>)
    requires Good(cfg) && |seed| == SEED_BYTES
    ensures exists idx :: Indexes(cfg, WordsOf(cfg, seed), idx) && Spread(idx, 11) == AllBits(cfg, seed)
  {
    var idx := Group(AllBits(cfg, seed), 11);
    IndexesInRange(cfg, seed);
    SpreadGroup(AllBits(cfg, seed), 11);
    assert Indexes(cfg, WordsOf(cfg, seed), idx);
  }

  /** Encode, then decode: every 16-byte seed comes back, and nothing else does. */
  lemma EncodeDecode(cfg: Config, seed: seq<Byte>, r: Result<seq<Byte>, DecodeError>)
    requires Good(cfg) && |seed| == SEED_BYTES && Decodes(cfg, Mnemonic(cfg, seed), r)
    ensures r == Ok(seed)
  {
    NormalizedMnemonic(cfg, seed);
    WordsSpellBits(cfg, seed);
    DecodingUnique(cfg, Mnemonic(cfg, seed), seed, r);
  }

  /** Decode, then encode: what comes out is the input, lowercased and with single spaces. */
  lemma DecodeEncode(cfg: Config, mnemonic: string, seed: seq<Byte>)
    requires Good(cfg) && Decodes(cfg, mnemonic, Ok(seed))
    ensures Mnemonic(cfg, seed) == Text.Join(Normalized(cfg, mnemonic), ' ')
  {
    var words := Normalized(cfg, mnemonic);
    var idx :| Indexes(cfg, words, idx) && Spread(idx, 11) == AllBits(cfg, seed);
    Powers();
    GroupSpread(idx, 11);
    assert WordsOf(cfg, seed) == words;
  }
}
