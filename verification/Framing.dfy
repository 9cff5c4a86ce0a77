/**
 Every transfer, in either direction, is a sequence of 1024-byte frames
 (BUFFER_PARTITION_SIZE): a byte stream cut at multiples of 1024, its last frame padded with zeros.
 */
module Framing {
  import opened Bytes

  type Frame = f: Bytes | |f| == 1024 witness Zeros(1024)

  /** ceil(n / 1024) */
  function NumFrames(n: nat): nat {
    (n + 1023) / 1024
  }

  function FrameAt(s: Bytes, k: nat): Frame
    requires 1024 * k < |s|
  {
    var hi := Min(|s|, 1024 * k + 1024);
    s[1024 * k..hi] + Zeros(1024 * k + 1024 - hi)
  }

  function Frames(s: Bytes): (fs: seq<Frame>)
    ensures |fs| == NumFrames(|s|)
  {
    seq(NumFrames(|s|), k requires 0 <= k < NumFrames(|s|) => FrameAt(s, k))
  }

  /** A stream that fits in one frame is that frame, padded. */
  lemma SingleFrame(s: Bytes)
    requires 0 < |s| <= 1024
    ensures Frames(s) == [s + Zeros(1024 - |s|)]
  {
    assert NumFrames(|s|) == 1;
    assert FrameAt(s, 0) == s + Zeros(1024 - |s|);
  }

  function Flatten(fs: seq<Frame>): (s: Bytes)
    ensures |s| == 1024 * |fs|
  {
    if fs == [] then [] else Flatten(fs[..|fs| - 1]) + fs[|fs| - 1]
  }

  lemma FlattenTake(fs: seq<Frame>, k: nat)
    requires k < |fs|
    ensures Flatten(fs[..k + 1]) == Flatten(fs[..k]) + fs[k]
  {
    assert fs[..k + 1][..k] == fs[..k];
  }

  lemma {:induction false} FlattenPrefix(fs: seq<Frame>, k: nat)
    requires k <= |fs|
    ensures Flatten(fs[..k]) == Flatten(fs)[..1024 * k]
  {
    if k == |fs| {
      assert fs[..k] == fs;
    } else {
      FlattenPrefix(fs[..|fs| - 1], k);
      assert fs[..|fs| - 1][..k] == fs[..k];
    }
  }

  lemma SliceOfFlatten(fs: seq<Frame>, i: nat)
    requires i < |fs|
    ensures Flatten(fs)[1024 * i..1024 * i + 1024] == fs[i]
  {
    FlattenPrefix(fs, i + 1);
    FlattenTake(fs, i);
    assert Flatten(fs)[..1024 * (i + 1)][1024 * i..] == fs[i];
  }

  /** The first k frames of a stream hold its first 1024*k bytes, padding only in the last frame. */
  lemma {:induction false} FlattenFrames(s: Bytes, k: nat)
    requires k <= NumFrames(|s|)
    ensures Flatten(Frames(s)[..k]) == s[..Min(|s|, 1024 * k)] + Zeros(1024 * k - Min(|s|, 1024 * k))
  {
    if k > 0 {
      FlattenFrames(s, k - 1);
      FlattenTake(Frames(s), k - 1);
      hide Flatten;
      assert Frames(s)[k - 1] == FrameAt(s, k - 1);
      hide Frames;
      StreamBeginning(s, k - 1);
    }
  }

  /** One more frame continues the beginning of the stream. */
  lemma StreamBeginning(s: Bytes, k: nat)
    requires 1024 * k < |s|
    ensures var hi := Min(|s|, 1024 * k + 1024);
      s[..Min(|s|, 1024 * k)] + Zeros(1024 * k - Min(|s|, 1024 * k)) + FrameAt(s, k) == s[..hi] + Zeros(1024 * k + 1024 - hi)
  {
    var lo, hi := 1024 * k, Min(|s|, 1024 * k + 1024);
    assert s[..lo] + Zeros(0) == s[..lo];
    assert s[..lo] + s[lo..hi] == s[..hi];
  }

  /** Cutting a stream into frames loses nothing and adds only zeros at the end. */
  lemma FramesHoldStream(s: Bytes)
    ensures Flatten(Frames(s)) == s + Zeros(1024 * NumFrames(|s|) - |s|)
  {
    FlattenFrames(s, NumFrames(|s|));
    assert Frames(s)[..NumFrames(|s|)] == Frames(s);
    assert s[..|s|] == s;
  }

  /** How many bytes of an n-byte content lie in the first k frames, when a 44-byte prologue precedes it. */
  function Cursor(n: nat, k: nat): nat {
    if k == 0 then 0 else Min(n, 1024 * k - 44)
  }

  /** How far the cursor moves with one frame, and which frame is the last. */
  lemma CursorStep(n: nat, k: nat)
    requires k < NumFrames(44 + n)
    ensures var i := Cursor(n, k);
      var room := if i != 0 then 1024 else 980;
      && (i != 0 <==> k != 0)
      && Cursor(n, k + 1) == i + Min(n - i, room)
      && (n - i > room <==> k + 1 != NumFrames(44 + n))
  {
  }

  /** The k-th frame of a prologue and a content: the prologue in the first frame only, then the content between two cursors. */
  lemma ContentFrame(prologue: Bytes, content: Bytes, k: nat)
    requires |prologue| == 44 && k < NumFrames(44 + |content|)
    ensures var i, j := Cursor(|content|, k), Cursor(|content|, k + 1);
      && i <= j
      && (k > 0 ==> i == 1024 * k - 44)
      && FrameAt(prologue + content, k) == (if k == 0 then prologue else []) + content[i..j] + Zeros((if k == 0 then 980 else 1024) - (j - i))
  {
    if k == 0 {
      FirstContentFrame(prologue, content);
    } else {
      LaterContentFrame(prologue, content, k);
    }
    hide FrameAt, Zeros;
    assert [] + content[Cursor(|content|, k)..Cursor(|content|, k + 1)] == content[Cursor(|content|, k)..Cursor(|content|, k + 1)];
  }

  lemma FirstContentFrame(prologue: Bytes, content: Bytes)
    requires |prologue| == 44
    ensures var j := Cursor(|content|, 1);
      FrameAt(prologue + content, 0) == prologue + content[0..j] + Zeros(980 - j)
  {
    SliceAcross(prologue, content, Min(44 + |content|, 1024));
  }

  lemma LaterContentFrame(prologue: Bytes, content: Bytes, k: nat)
    requires |prologue| == 44 && 0 < k < NumFrames(44 + |content|)
    ensures var i, j := 1024 * k - 44, Cursor(|content|, k + 1);
      i <= j && FrameAt(prologue + content, k) == content[i..j] + Zeros(1024 - (j - i))
  {
    SliceBehind(prologue, content, 1024 * k, Min(44 + |content|, 1024 * k + 1024));
  }

  lemma SliceAcross(s: Bytes, t: Bytes, hi: nat)
    requires |s| <= hi <= |s| + |t|
    ensures (s + t)[0..hi] == s + t[0..hi - |s|]
  {
  }

  lemma SliceBehind(s: Bytes, t: Bytes, lo: nat, hi: nat)
    requires |s| <= lo <= hi <= |s| + |t|
    ensures (s + t)[lo..hi] == t[lo - |s|..hi - |s|]
  {
  }
}
