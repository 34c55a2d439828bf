/**
  Source identity: a hash over three sampled windows of a file, and the checks
  a stored identity has to pass before a cursor is restored.
 */
module Fingerprint {
  import opened Bytes

  const PREFIX: nat := 4096

  /** Eight bytes: a `u64` in little-endian order. */
  type Word = w: seq<byte> | |w| == 8 witness [0, 0, 0, 0, 0, 0, 0, 0]

  function LittleEndian(n: nat, width: nat): (w: seq<byte>)
    ensures |w| == width
  {
    if width == 0 then [] else [n % 256] + LittleEndian(n / 256, width - 1)
  }

  function LE64(n: nat): Word { LittleEndian(n, 8) }

  function WindowStart(size: nat, which: nat): (start: nat)
    requires 0 < size && which < 3
    ensures start < size
  {
    if which == 0 then 0
    else if which == 1 then size / 2
    else if size >= PREFIX then size - PREFIX else 0
  }

  function WindowLength(size: nat, which: nat): (n: nat)
    requires 0 < size && which < 3
    ensures n <= size - WindowStart(size, which)
  {
    var left := size - WindowStart(size, which);
    if PREFIX < left then PREFIX else left
  }

  function Window(s: seq<byte>, size: nat, which: nat): seq<byte>
    requires 0 < size <= |s| && which < 3
  {
    s[WindowStart(size, which)..][..WindowLength(size, which)]
  }

  /** Bytes mixed for the first `count` windows. */
  function WindowMix(hash: seq<byte> -> Word, s: seq<byte>, size: nat, count: nat): (m: seq<byte>)
    requires size <= |s| && count <= 3
    ensures |m| == if size == 0 then 0 else 16 * count
  {
    if size == 0 || count == 0 then []
    else
      var w := count - 1;
      WindowMix(hash, s, size, w) + LE64(WindowStart(size, w)) + hash(Window(s, size, w))
  }

  function Mix(hash: seq<byte> -> Word, s: seq<byte>, size: nat): seq<byte>
    requires size <= |s|
  {
    LE64(size) + WindowMix(hash, s, size, 3)
  }

  function Content(hash: seq<byte> -> Word, s: seq<byte>, size: nat): Word
    requires size <= |s|
  {
    hash(Mix(hash, s, size))
  }

  /** The content fingerprint, mixed with the CSV options when there are any. */
  function Bind(hash: seq<byte> -> Word, content: Word, format: Option<seq<byte>>): Word {
    match format
    case None => content
    case Some(options) => hash(content + options)
  }

  lemma MixNothing(hash: seq<byte> -> Word, file: seq<byte>, size: nat)
    requires size <= |file|
    ensures WindowMix(hash, file, size, 0) == [] && LE64(size) + [] == LE64(size)
    ensures size == 0 ==> WindowMix(hash, file, size, 3) == []
  {
  }

  lemma MixOneMore(hash: seq<byte> -> Word, file: seq<byte>, size: nat, w: nat, mix: seq<byte>)
    requires 0 < size <= |file| && w < 3
    ensures mix + WindowMix(hash, file, size, w) + LE64(WindowStart(size, w)) + hash(Window(file, size, w)) ==
            mix + WindowMix(hash, file, size, w + 1)
  {
    hide LE64; hide Window; hide WindowStart;
  }

  lemma WindowIs(file: seq<byte>, size: nat, w: nat)
    requires 0 < size <= |file| && w < 3
    ensures Window(file, size, w) == file[WindowStart(size, w)..WindowStart(size, w) + WindowLength(size, w)]
  {
  }

  /** `content_fingerprint`: `None` when a window cannot be read in full, which is so
      exactly when the file is shorter than the size asked for. */
  method ContentFingerprint(hash: seq<byte> -> Word, file: seq<byte>, size: nat) returns (r: Option<Word>)
    ensures r.Some? <==> size <= |file|
    ensures r.Some? ==> r.value == Content(hash, file, size)
  {
    hide LE64; hide WindowMix; hide Window;
    var mix: seq<byte> := LE64(size);
    if size <= |file| { MixNothing(hash, file, size); }
    if size > 0 {
      var starts := [0, size / 2, if size >= PREFIX then size - PREFIX else 0];
      for w := 0 to 3
        invariant size <= |file| ==> mix == LE64(size) + WindowMix(hash, file, size, w)
        invariant w == 3 ==> size <= |file|
      {
        var start := if starts[w] < size - 1 then starts[w] else size - 1;
        var n := if PREFIX < size - start then PREFIX else size - start;
        if start + n > |file| { return None; }
        var buf := file[start..start + n];
        if size <= |file| {
          assert start == WindowStart(size, w) && n == WindowLength(size, w);
          WindowIs(file, size, w);
          MixOneMore(hash, file, size, w, LE64(size));
        }
        mix := mix + LE64(start) + hash(buf);
      }
    }
    return Some(hash(mix));
  }

  // ---- Identity -----------------------------------------------------------

  datatype Identity = Identity(size: nat, fingerprint: Word)

  function IdentityOf(hash: seq<byte> -> Word, format: Option<seq<byte>>, s: seq<byte>): Identity {
    Identity(|s|, Bind(hash, Content(hash, s, |s|), format))
  }

  /** A stored identity against the live file, under a terminal or append-only contract. */
  predicate IdentityHolds(
    hash: seq<byte> -> Word, format: Option<seq<byte>>, terminal: bool, stored: Identity, live: seq<byte>)
  {
    if terminal then stored == IdentityOf(hash, format, live)
    else stored.size <= |live| && stored.fingerprint == Bind(hash, Content(hash, live, stored.size), format)
  }

  /** The windows at size `n` look at the first `n` bytes only. */
  lemma {:induction false} SamplesOnlyPrefix(
    hash: seq<byte> -> Word, s: seq<byte>, t: seq<byte>, size: nat, count: nat)
    requires size <= |s| && size <= |t| && s[..size] == t[..size] && count <= 3
    ensures WindowMix(hash, s, size, count) == WindowMix(hash, t, size, count)
  {
    if 0 < size && 0 < count {
      var w := count - 1;
      SamplesOnlyPrefix(hash, s, t, size, w);
      var a, n := WindowStart(size, w), WindowLength(size, w);
      assert forall i | 0 <= i < size :: s[..size][i] == t[..size][i];
      assert forall i | a <= i < a + n :: s[i] == s[..size][i] && t[i] == t[..size][i];
      assert Window(s, size, w) == Window(t, size, w);
    }
  }

  /** Appending never breaks an append-only identity, however often it happens. */
  lemma AppendKeepsIdentity(
    hash: seq<byte> -> Word, format: Option<seq<byte>>, stored: Identity, s: seq<byte>, more: seq<byte>)
    requires IdentityHolds(hash, format, false, stored, s)
    ensures IdentityHolds(hash, format, false, stored, s + more)
  {
    assert (s + more)[..stored.size] == s[..stored.size];
    SamplesOnlyPrefix(hash, s, s + more, stored.size, 3);
  }

  // ---- How much of a file the fingerprint pins down ------------------------

  /** The hash does not happen to collide on these two inputs. */
  predicate Apart(hash: seq<byte> -> Word, x: seq<byte>, y: seq<byte>) {
    hash(x) == hash(y) ==> x == y
  }

  lemma {:induction false} LittleEndianInjective(a: nat, b: nat, width: nat)
    requires LittleEndian(a, width) == LittleEndian(b, width)
    requires a < Pow256(width) && b < Pow256(width)
    ensures a == b
  {
    if 0 < width {
      var la, lb := LittleEndian(a / 256, width - 1), LittleEndian(b / 256, width - 1);
      assert LittleEndian(a, width)[0] == a % 256 && LittleEndian(b, width)[0] == b % 256;
      assert LittleEndian(a, width)[1..] == la && LittleEndian(b, width)[1..] == lb;
      LittleEndianInjective(a / 256, b / 256, width - 1);
    }
  }

  function Pow256(k: nat): (p: nat)
    ensures p >= 1
  {
    if k == 0 then 1 else 256 * Pow256(k - 1)
  }

  /** The number that bytes stand for, the first of them being the lowest. */
  function Value(w: seq<byte>): nat {
    if w == [] then 0 else w[0] + 256 * Value(w[1..])
  }

  lemma {:induction false} LittleEndianValue(n: nat, width: nat)
    requires n < Pow256(width)
    ensures Value(LittleEndian(n, width)) == n
  {
    if width > 0 {
      LittleEndianValue(n / 256, width - 1);
      assert LittleEndian(n, width)[1..] == LittleEndian(n / 256, width - 1);
    }
  }

  lemma EqualSizes(a: nat, b: nat, x: seq<byte>, y: seq<byte>)
    requires a < Pow256(8) && b < Pow256(8)
    requires LE64(a) + x == LE64(b) + y
    ensures a == b && x == y
  {
    var u, v := LE64(a), LE64(b);
    assert (u + x)[..8] == u && (v + y)[..8] == v;
    assert (u + x)[8..] == x && (v + y)[8..] == y;
    LittleEndianInjective(a, b, 8);
  }

  /** Equal mixes of equally long files have equal window hashes. */
  lemma {:induction false} EqualWindows(hash: seq<byte> -> Word, s: seq<byte>, t: seq<byte>, count: nat)
    requires |s| == |t| > 0 && count <= 3
    requires WindowMix(hash, s, |s|, count) == WindowMix(hash, t, |t|, count)
    ensures forall w: nat | w < count :: hash(Window(s, |s|, w)) == hash(Window(t, |t|, w))
  {
    if 0 < count {
      var c := count - 1;
      var ms, mt := WindowMix(hash, s, |s|, count), WindowMix(hash, t, |t|, count);
      assert ms[16 * c + 8..] == hash(Window(s, |s|, c)) && mt[16 * c + 8..] == hash(Window(t, |t|, c));
      assert ms[..16 * c] == WindowMix(hash, s, |s|, c) && mt[..16 * c] == WindowMix(hash, t, |t|, c);
      EqualWindows(hash, s, t, c);
    }
  }

  lemma SmallSize(n: nat)
    requires n <= 2 * PREFIX + 1
    ensures n < Pow256(8)
  {
    assert Pow256(8) == 256 * Pow256(7) && Pow256(7) == 256 * Pow256(6);
  }

  /** Up to 8193 bytes the windows cover the file: without a collision, equal
      fingerprints mean equal contents. */
  lemma SmallFilesPinned(hash: seq<byte> -> Word, s: seq<byte>, t: seq<byte>)
    requires |s| <= 2 * PREFIX + 1 && |t| < Pow256(8)
    requires Content(hash, s, |s|) == Content(hash, t, |t|)
    requires Apart(hash, Mix(hash, s, |s|), Mix(hash, t, |t|))
    requires |s| == |t| > 0 ==> forall w: nat | w < 3 :: Apart(hash, Window(s, |s|, w), Window(t, |t|, w))
    ensures s == t
  {
    SmallSize(|s|);
    EqualSizes(|s|, |t|, WindowMix(hash, s, |s|, 3), WindowMix(hash, t, |t|, 3));
    if s != [] {
      EqualWindows(hash, s, t, 3);
      WindowsCover(s, t);
    }
  }

  lemma WindowsCover(s: seq<byte>, t: seq<byte>)
    requires 0 < |s| == |t| <= 2 * PREFIX + 1
    requires forall w: nat | w < 3 :: Window(s, |s|, w) == Window(t, |t|, w)
    ensures s == t
  {
    forall i | 0 <= i < |s| ensures s[i] == t[i] {
      var w := if i < PREFIX then 0 else if i < |s| / 2 + PREFIX then 1 else 2;
      var j := i - WindowStart(|s|, w);
      assert 0 <= j < WindowLength(|s|, w);
      assert Window(s, |s|, w)[j] == s[i] && Window(t, |t|, w)[j] == t[i];
    }
  }

  /** From 8194 bytes on, byte 4096 is in no window: the fingerprint cannot see it. */
  lemma LargeFilesNotPinned(hash: seq<byte> -> Word, s: seq<byte>, b: byte)
    requires |s| > 2 * PREFIX + 1
    ensures Content(hash, s[PREFIX := b], |s|) == Content(hash, s, |s|)
  {
    UnsampledByte(hash, s, b, 3);
  }

  lemma {:induction false} UnsampledByte(hash: seq<byte> -> Word, s: seq<byte>, b: byte, count: nat)
    requires |s| > 2 * PREFIX + 1 && count <= 3
    ensures WindowMix(hash, s[PREFIX := b], |s|, count) == WindowMix(hash, s, |s|, count)
  {
    if 0 < count {
      UnsampledByte(hash, s, b, count - 1);
      assert Window(s[PREFIX := b], |s|, count - 1) == Window(s, |s|, count - 1);
    }
  }

  /** Two CSV option sets never share a fingerprint without a collision. */
  lemma OptionsBound(hash: seq<byte> -> Word, a: Word, f: seq<byte>, b: Word, g: seq<byte>)
    requires Apart(hash, a + f, b + g)
    requires Bind(hash, a, Some(f)) == Bind(hash, b, Some(g))
    ensures a == b && f == g
  {
    assert (a + f)[..8] == a && (b + g)[..8] == b;
    assert (a + f)[8..] == f && (b + g)[8..] == g;
  }

  // ---- What an accepted identity means ---------------------------------------

  /** The hash does not collide on what the identities of `s` and `t` are made of. */
  ghost predicate NoCollision(hash: seq<byte> -> Word, format: Option<seq<byte>>, s: seq<byte>, t: seq<byte>) {
    && Apart(hash, Mix(hash, s, |s|), Mix(hash, t, |t|))
    && (|s| == |t| > 0 ==> forall w: nat | w < 3 :: Apart(hash, Window(s, |s|, w), Window(t, |t|, w)))
    && (format.Some? ==>
          Apart(hash, Content(hash, s, |s|) + format.value, Content(hash, t, |t|) + format.value))
  }

  /** Equal identities are those of equal sampled contents. */
  lemma EqualIdentities(hash: seq<byte> -> Word, format: Option<seq<byte>>, s: seq<byte>, t: seq<byte>)
    requires |s| < Pow256(8) && |t| < Pow256(8) && NoCollision(hash, format, s, t)
    requires Bind(hash, Content(hash, s, |s|), format) == Bind(hash, Content(hash, t, |t|), format)
    ensures |s| == |t| && (s != [] ==> forall w: nat | w < 3 :: Window(s, |s|, w) == Window(t, |t|, w))
    ensures |s| <= 2 * PREFIX + 1 ==> s == t
  {
    hide WindowMix; hide Window; hide LE64;
    if format.Some? {
      OptionsBound(hash, Content(hash, s, |s|), format.value, Content(hash, t, |t|), format.value);
    }
    EqualSizes(|s|, |t|, WindowMix(hash, s, |s|, 3), WindowMix(hash, t, |t|, 3));
    if s != [] { EqualWindows(hash, s, t, 3); }
    if |s| <= 2 * PREFIX + 1 && s != [] { WindowsCover(s, t); }
  }

  /** An identity stored for `s` is accepted of a live file only if that file, or under the
      append-only contract its prefix of that size, has the same sampled contents: up to
      8193 bytes the same contents. */
  lemma IdentityPins(hash: seq<byte> -> Word, format: Option<seq<byte>>, terminal: bool, s: seq<byte>, live: seq<byte>)
    requires |s| < Pow256(8) && |live| < Pow256(8)
    requires |s| <= |live| ==> NoCollision(hash, format, s, live[..|s|])
    requires IdentityHolds(hash, format, terminal, IdentityOf(hash, format, s), live)
    ensures |s| <= |live| && (terminal ==> |s| == |live|)
    ensures s != [] ==> forall w: nat | w < 3 :: Window(s, |s|, w) == Window(live[..|s|], |s|, w)
    ensures |s| <= 2 * PREFIX + 1 ==> if terminal then s == live else s <= live
  {
    hide Content; hide Window;
    assert terminal ==> live[..|s|] == live;
    PrefixContent(hash, live, |s|);
    EqualIdentities(hash, format, s, live[..|s|]);
  }

  lemma PrefixContent(hash: seq<byte> -> Word, live: seq<byte>, size: nat)
    requires size <= |live|
    ensures Content(hash, live[..size], size) == Content(hash, live, size)
  {
    assert live[..size][..size] == live[..size];
    SamplesOnlyPrefix(hash, live[..size], live, size, 3);
  }
}
