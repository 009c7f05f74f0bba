/** Copying a match by words instead of bytes (the match arm of `sinfl_decompress`).

  The word copies run past the end of the match; they may do so only as far as the end of the
  output buffer, and every byte they write past it is written again later. */
module CopyMatch {
  import opened Bits
  import opened Format

  /** Every byte of `s` from `o` up to `n` repeats the one `offs` places before it. */
  ghost predicate Repeats(s: seq<byte>, o: nat, n: nat, offs: nat) {
    1 <= offs <= o <= n <= |s| && forall i :: o <= i < n ==> s[i] == s[i - offs]
  }

  /** The byte-by-byte rule determines the copy. */
  lemma {:induction false} RepeatsCopy(s: seq<byte>, o: nat, len: nat, offs: nat)
    requires Repeats(s, o, o + len, offs)
    ensures s[..o + len] == CopyBack(s[..o], offs, len)
    decreases len
  {
    if len > 0 {
      assert s[..o] + [s[o - offs]] == s[..o + 1];
      assert s[..o][o - offs] == s[o - offs] == s[o];
      RepeatsCopy(s, o + 1, len - 1, offs);
    }
  }

  /** What happened to the output since the copy began: up to `dst` it is done, the bytes before `o`
      and from `lim` on are untouched. */
  ghost predicate Copied(was: seq<byte>, now: seq<byte>, o: nat, dst: nat, lim: nat, offs: nat) {
    && |now| == |was| && lim <= |now| && Repeats(now, o, dst, offs)
    && now[..o] == was[..o] && now[lim..] == was[lim..]
  }

  /** `n` bytes loaded from `src` and stored at `dst`. */
  function Moved(s: seq<byte>, dst: nat, src: nat, n: nat): (r: seq<byte>)
    requires src + n <= |s| && dst + n <= |s|
    ensures |r| == |s|
  {
    s[..dst] + s[src..src + n] + s[dst + n..]
  }

  /** The byte `c` stored `n` times at `dst`. */
  function Splat(s: seq<byte>, dst: nat, c: byte, n: nat): (r: seq<byte>)
    requires dst + n <= |s|
    ensures |r| == |s|
  {
    s[..dst] + seq(n, _ => c) + s[dst + n..]
  }

  /** A word no wider than the distance. */
  lemma MoveStep(was: seq<byte>, now: seq<byte>, o: nat, dst: nat, lim: nat, offs: nat, n: nat)
    requires Copied(was, now, o, dst, lim, offs) && n <= offs && dst + n <= lim
    ensures dst + n <= |now|
    ensures Copied(was, Moved(now, dst, dst - offs, n), o, dst + n, lim, offs)
  {
    var r := Moved(now, dst, dst - offs, n);
    forall i | o <= i < dst + n ensures r[i] == r[i - offs] {
      if i < dst { assert r[i] == now[i]; }
    }
    forall i | 0 <= i < o ensures r[i] == was[i] {
      assert now[..o][i] == now[i];
      assert was[..o][i] == was[i];
    }
    assert r[..o] == was[..o];
    assert r[lim..] == now[lim..];
  }

  /** A run of one byte; the next word is stored `m` bytes on. */
  lemma SplatStep(was: seq<byte>, now: seq<byte>, o: nat, dst: nat, lim: nat, c: byte, n: nat, m: nat)
    requires Copied(was, now, o, dst, lim, 1) && m <= n && dst + n <= lim && c == was[o - 1]
    ensures dst + n <= |now|
    ensures Copied(was, Splat(now, dst, c, n), o, dst + m, lim, 1)
  {
    var r := Splat(now, dst, c, n);
    RunByte(now, o, dst);
    assert now[o - 1] == now[..o][o - 1] == was[..o][o - 1] == c;
    forall i | o <= i < dst + m ensures r[i] == r[i - 1] {
      if i < dst { assert r[i] == now[i]; }
    }
    forall i | 0 <= i < o ensures r[i] == was[i] {
      assert now[..o][i] == now[i];
      assert was[..o][i] == was[i];
    }
    assert r[..o] == was[..o];
    assert r[lim..] == now[lim..];
  }

  lemma {:induction false} RunByte(s: seq<byte>, o: nat, n: nat)
    requires Repeats(s, o, n, 1)
    ensures s[n - 1] == s[o - 1]
    decreases n
  {
    if o < n { RunByte(s, o, n - 1); }
  }

  lemma CopiedStart(was: seq<byte>, o: nat, lim: nat, offs: nat)
    requires 1 <= offs <= o <= lim <= |was|
    ensures Copied(was, was, o, o, lim, offs)
  {
  }

  lemma CopiedEnd(was: seq<byte>, now: seq<byte>, o: nat, len: nat, dst: nat, lim: nat, offs: nat)
    requires Copied(was, now, o, dst, lim, offs) && o + len <= dst
    ensures |now| == |was| && lim <= |now| && 1 <= offs <= o && o + len <= |now|
    ensures now[..o + len] == CopyBack(was[..o], offs, len) && now[lim..] == was[lim..]
  {
    RepeatsCopy(now, o, len, offs);
  }

  /** `sinfl_copy64` and `sinfl_copy128`: a word of `n` bytes is loaded, then stored. */
  method CopyWord(out: array<byte>, dst: nat, src: nat, n: nat)
    requires src + n <= out.Length && dst + n <= out.Length
    modifies out
    ensures out[..] == Moved(old(out[..]), dst, src, n)
  {
    var word := out[src..src + n];
    forall i | 0 <= i < n { out[dst + i] := word[i]; }
  }

  /** `sinfl_write64` and `sinfl_write128`: a word of `n` equal bytes is stored. */
  method WriteWord(out: array<byte>, dst: nat, c: byte, n: nat)
    requires dst + n <= out.Length
    modifies out
    ensures out[..] == Splat(old(out[..]), dst, c, n)
  {
    forall i | 0 <= i < n { out[dst + i] := c; }
  }

  /** Copies words of `n` bytes, no fewer than three, until the match is complete. */
  method CopyWords(out: array<byte>, o: nat, len: nat, offs: nat, n: nat, ghost lim: nat)
    requires 1 <= n <= offs <= o && lim <= out.Length && o + 3 * n <= lim && o + len + n - 1 <= lim
    modifies out
    ensures out[..o + len] == CopyBack(old(out[..o]), offs, len) && out[lim..] == old(out[lim..])
  {
    hide *;
    ghost var was := out[..];
    assert out[..o] == was[..o] && out[lim..] == was[lim..];
    CopiedStart(was, o, lim, offs);
    var dst, src := o, o - offs;
    MoveStep(was, out[..], o, dst, lim, offs, n);
    CopyWord(out, dst, src, n);
    dst, src := dst + n, src + n;
    MoveStep(was, out[..], o, dst, lim, offs, n);
    CopyWord(out, dst, src, n);
    dst, src := dst + n, src + n;
    var going := true;
    while going
      invariant src == dst - offs && Copied(was, out[..], o, dst, lim, offs)
      invariant if going then dst + n <= lim else o + len <= dst
      decreases going, o + len - dst
    {
      MoveStep(was, out[..], o, dst, lim, offs, n);
      CopyWord(out, dst, src, n);
      dst, src := dst + n, src + n;
      going := dst < o + len;
    }
    CopiedEnd(was, out[..], o, len, dst, lim, offs);
    assert out[..][..o + len] == out[..o + len] && out[..][lim..] == out[lim..];
  }

  /** Repeats one byte, with words of `n` bytes stored eight bytes apart. */
  method CopyRun(out: array<byte>, o: nat, len: nat, n: nat, ghost lim: nat)
    requires 8 <= n <= 16 && 1 <= o && lim <= out.Length && o + 16 + n <= lim && o + len + n - 1 <= lim
    modifies out
    ensures out[..o + len] == CopyBack(old(out[..o]), 1, len) && out[lim..] == old(out[lim..])
  {
    hide *;
    ghost var was := out[..];
    assert out[..o] == was[..o] && out[lim..] == was[lim..];
    CopiedStart(was, o, lim, 1);
    var dst, c := o, out[o - 1];
    SplatStep(was, out[..], o, dst, lim, c, n, 8);
    WriteWord(out, dst, c, n);
    dst := dst + 8;
    SplatStep(was, out[..], o, dst, lim, c, n, 8);
    WriteWord(out, dst, c, n);
    dst := dst + 8;
    var going := true;
    while going
      invariant Copied(was, out[..], o, dst, lim, 1) && c == was[o - 1]
      invariant if going then dst + n <= lim else o + len <= dst
      decreases going, o + len - dst
    {
      SplatStep(was, out[..], o, dst, lim, c, n, 8);
      WriteWord(out, dst, c, n);
      dst := dst + 8;
      going := dst < o + len;
    }
    CopiedEnd(was, out[..], o, len, dst, lim, 1);
    assert out[..][..o + len] == out[..o + len] && out[..][lim..] == out[lim..];
  }

  /** Copies a match to the end of the output; bytes from `cap` on stay as they are. */
  method Copy(out: array<byte>, o: nat, len: nat, offs: nat, cap: nat, simd: bool)
    requires 1 <= offs <= o && 3 <= len && o + len <= cap <= out.Length
    modifies out
    ensures out[..o + len] == CopyBack(old(out[..o]), offs, len)
    ensures out[cap..] == old(out[cap..])
  {
    if simd && cap - (o + len) >= 16 * 3 {
      if offs >= 16 {
        CopyWords(out, o, len, offs, 16, cap);
      } else if offs >= 8 {
        CopyWords(out, o, len, offs, 8, cap);
      } else if offs == 1 {
        CopyRun(out, o, len, 16, cap);
      } else {
        CopyWords(out, o, len, offs, 1, cap);
      }
    } else if !simd && cap - (o + len) >= 3 * 8 - 3 {
      if offs >= 8 {
        CopyWords(out, o, len, offs, 8, cap);
      } else if offs == 1 {
        CopyRun(out, o, len, 8, cap);
      } else {
        CopyWords(out, o, len, offs, 1, cap);
      }
    } else {
      CopyWords(out, o, len, offs, 1, cap);
    }
  }
}
