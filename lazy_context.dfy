/**
 * `LazyContext`: a parsing context that pulls tokens from a source on
 * demand and keeps only a sliding window of them. The window holds the
 * tokens from the global index `baseIndex` on; the cursor sits
 * `cursorOffset` tokens into it; tokens below `committedIndex` are never
 * revisited and are pruned, and at most half the window size of history
 * is kept behind the cursor.
 *
 * The source iterator is the sequence of tokens it has still to give.
 * The ghost field `pulled` holds every token pulled so far and `all` the
 * whole stream, so each operation is stated against a token-vector
 * context over `all` whose cursor is `TokenIndex()`.
 */
module LazyContexts {
  import opened Common
  import opened ParseContexts

  function Max(a: nat, b: nat): (m: nat)
    ensures m >= a && m >= b && (m == a || m == b)
  {
    if a >= b then a else b
  }

  function Min(a: nat, b: nat): (m: nat)
    ensures m <= a && m <= b && (m == a || m == b)
  {
    if a <= b then a else b
  }

  /**
   * `maybe_prune` on the window counters: the new base index and cursor
   * offset. Everything below the commit point goes, then the history
   * behind the cursor is cut to `keep`.
   */
  function PrunedWindow(base: nat, offset: nat, committed: nat, keep: nat): (r: (nat, nat))
    requires committed <= base + offset
    ensures r.0 + r.1 == base + offset
    ensures r.0 >= base && r.0 >= committed
    ensures r.1 <= keep
    ensures r.1 == Min(base + offset - Max(base, committed), keep)
  {
    var b := Max(base, committed);
    var o := base + offset - b;
    if o > keep then (b + o - keep, keep) else (b, o)
  }

  /**
   * Pruning keeps as much history as it may: a window that already
   * starts at or after the commit point and keeps no more than `keep`
   * behind the cursor is left alone.
   */
  lemma PruneIdle(base: nat, offset: nat, committed: nat, keep: nat)
    requires committed <= base && offset <= keep
    ensures PrunedWindow(base, offset, committed, keep) == (base, offset)
  {
  }

  /** Pruning twice prunes no more than pruning once. */
  lemma PruneIdempotent(base: nat, offset: nat, committed: nat, keep: nat)
    requires committed <= base + offset
    ensures var (b, o) := PrunedWindow(base, offset, committed, keep);
      PrunedWindow(b, o, committed, keep) == (b, o)
  {
  }

  class LazyContext<Tok> {
    /** What the source iterator has still to give. */
    var source: seq<Tok>
    var buffer: seq<Tok>
    var baseIndex: nat
    var cursorOffset: nat
    var position: Position
    const windowSize: nat
    var committedIndex: nat
    ghost var pulled: seq<Tok>
    ghost const all: seq<Tok>

    /** The window bookkeeping, which `maybe_prune` restores after a commit. */
    ghost predicate Inv()
      reads this
    {
      pulled + source == all
      && |pulled| == baseIndex + |buffer|
      && buffer == pulled[baseIndex..]
      && cursorOffset <= |buffer|
    }

    ghost predicate Valid()
      reads this
    {
      Inv() && committedIndex <= baseIndex
    }

    /** `token_index`: the global index of the cursor. */
    function TokenIndex(): (i: nat)
      reads this
      ensures i == baseIndex + cursorOffset
    {
      baseIndex + cursorOffset
    }

    /** The token-vector context this one stands for: the whole stream, cursor at `TokenIndex()`. */
    ghost function View(): Toks<Tok>
      reads this
    {
      Toks(all, TokenIndex(), true)
    }

    /** `LazyContext::new`: nothing pulled yet. */
    constructor (source: seq<Tok>, windowSize: nat)
      ensures Valid() && View() == Toks(source, 0, true)
      ensures this.source == source && buffer == [] && committedIndex == 0
      ensures this.windowSize == windowSize && position == StartPosition()
    {
      this.source := source;
      buffer := [];
      baseIndex := 0;
      cursorOffset := 0;
      position := StartPosition();
      this.windowSize := windowSize;
      committedIndex := 0;
      pulled := [];
      all := source;
    }

    /** Buffered tokens lie exactly where they lie in the stream. */
    lemma BufferIsStream(k: nat)
      requires Inv() && cursorOffset + k < |buffer|
      ensures TokenIndex() + k < |all| && buffer[cursorOffset + k] == all[TokenIndex() + k]
    {
      assert buffer[cursorOffset + k] == pulled[TokenIndex() + k];
      assert all[TokenIndex() + k] == (pulled + source)[TokenIndex() + k];
    }

    /**
     * `ensure_buffer(k)`: pull tokens until one is buffered `k` after the
     * cursor; `false` when the source runs out first.
     */
    method EnsureBuffer(k: nat) returns (ok: bool)
      requires Inv()
      modifies this
      ensures Inv() && (ok <==> TokenIndex() + k < |all|)
      ensures ok ==> cursorOffset + k < |buffer|
      ensures !ok ==> source == []
      ensures ok ==> |buffer| == Max(old(|buffer|), cursorOffset + k + 1)
      ensures baseIndex == old(baseIndex) && cursorOffset == old(cursorOffset) && committedIndex == old(committedIndex)
      ensures position == old(position) && buffer[..old(|buffer|)] == old(buffer)
    {
      while cursorOffset + k >= |buffer|
        invariant Inv() && baseIndex == old(baseIndex) && cursorOffset == old(cursorOffset)
        invariant committedIndex == old(committedIndex) && position == old(position)
        invariant old(|buffer|) <= |buffer| && buffer[..old(|buffer|)] == old(buffer)
        invariant |buffer| == old(|buffer|) || |buffer| <= cursorOffset + k + 1
        decreases |source|
      {
        if source == [] {
          assert |all| == |pulled|;
          return false;
        }
        ghost var before := pulled;
        assert source == [source[0]] + source[1..];
        buffer := buffer + [source[0]];
        pulled := pulled + [source[0]];
        source := source[1..];
        assert buffer == pulled[baseIndex..];
        assert pulled + source == before + ([pulled[|pulled| - 1]] + source);
      }
      ok := true;
    }

    /** `peek_at(k)`: the token `k` after the cursor in the stream, pulling it if needed. */
    method PeekAt(k: nat) returns (t: Option<Tok>)
      requires Valid()
      modifies this
      ensures Valid() && View() == old(View()) && t == ParseContexts.PeekAt(View(), k)
      ensures committedIndex == old(committedIndex) && position == old(position)
    {
      var ok := EnsureBuffer(k);
      if ok {
        BufferIsStream(k);
        t := Some(buffer[cursorOffset + k]);
      } else {
        t := None;
      }
    }

    /** `peek`: `peek_at(0)`. */
    method Peek() returns (t: Option<Tok>)
      requires Valid()
      modifies this
      ensures Valid() && View() == old(View()) && t == PeekTok(View())
      ensures committedIndex == old(committedIndex) && position == old(position)
    {
      t := PeekAt(0);
    }

    /**
     * `maybe_prune`: drop the tokens below the commit point, then cut the
     * history behind the cursor to half the window size.
     */
    method MaybePrune()
      requires Inv() && committedIndex <= TokenIndex()
      modifies this
      ensures Valid() && View() == old(View())
      ensures (baseIndex, cursorOffset) == PrunedWindow(old(baseIndex), old(cursorOffset), committedIndex, windowSize / 2)
      ensures committedIndex == old(committedIndex) && position == old(position) && source == old(source)
    {
      ghost var target := PrunedWindow(baseIndex, cursorOffset, committedIndex, windowSize / 2);
      while baseIndex < committedIndex
        invariant Inv() && committedIndex <= TokenIndex() && TokenIndex() == old(TokenIndex())
        invariant committedIndex == old(committedIndex) && position == old(position) && source == old(source)
        invariant pulled == old(pulled)
        invariant old(baseIndex) <= baseIndex <= Max(old(baseIndex), committedIndex)
        decreases committedIndex - baseIndex
      {
        buffer := buffer[1..];
        baseIndex := baseIndex + 1;
        if cursorOffset > 0 {
          cursorOffset := cursorOffset - 1;
        }
      }
      var keepHistory := windowSize / 2;
      if cursorOffset > keepHistory {
        var pruneCount := cursorOffset - keepHistory;
        buffer := buffer[pruneCount..];
        baseIndex := baseIndex + pruneCount;
        cursorOffset := cursorOffset - pruneCount;
      }
    }

    /**
     * `advance`: the token at the cursor, which then moves one on, and
     * pruning; nothing at the end of the stream. The position is never
     * updated.
     */
    method Advance() returns (t: Option<Tok>)
      requires Valid()
      modifies this
      ensures Valid() && (t, View()) == AdvanceTok(old(View()))
      ensures committedIndex == old(committedIndex) && position == old(position)
      ensures t.Some? ==> cursorOffset <= windowSize / 2
    {
      var ok := EnsureBuffer(0);
      if cursorOffset < |buffer| {
        BufferIsStream(0);
        var token := buffer[cursorOffset];
        cursorOffset := cursorOffset + 1;
        MaybePrune();
        t := Some(token);
      } else {
        t := None;
      }
    }

    /** `position`. */
    function CurrentPosition(): (p: Position)
      reads this
      ensures p == position
    {
      position
    }

    /** `is_eof`: no token at the cursor, even after trying to pull one. */
    method IsEof() returns (eof: bool)
      requires Valid()
      modifies this
      ensures Valid() && View() == old(View()) && eof == TokEof(View())
      ensures committedIndex == old(committedIndex) && position == old(position)
    {
      if cursorOffset < |buffer| {
        BufferIsStream(0);
        return false;
      }
      var ok := EnsureBuffer(0);
      eof := !ok;
    }

    /** `checkpoint`: the token index and the position. */
    function Checkpoint(): (m: Checkpoint)
      reads this
      ensures m.index == TokenIndex() && m.position == position
    {
      Common.Checkpoint(TokenIndex(), position)
    }

    /**
     * `restore`: back to a checkpoint still in the window. A target below
     * the window (already pruned) or beyond the buffered tokens is the
     * source's panic, here the answer `false` with nothing changed.
     */
    method Restore(m: Checkpoint) returns (ok: bool)
      requires Valid()
      modifies this
      ensures Valid()
      ensures ok <==> baseIndex <= m.index <= baseIndex + |buffer|
      ensures ok ==> View() == old(View()).(current := m.index) && position == m.position
      ensures !ok ==> View() == old(View()) && position == old(position)
      ensures baseIndex == old(baseIndex) && buffer == old(buffer) && committedIndex == old(committedIndex)
    {
      if m.index < baseIndex {
        return false;
      }
      var newOffset := m.index - baseIndex;
      if newOffset > |buffer| {
        return false;
      }
      cursorOffset := newOffset;
      position := m.position;
      ok := true;
    }

    /** `commit`: the commit point never moves back; then pruning. */
    method Commit()
      requires Valid()
      modifies this
      ensures Valid() && View() == old(View())
      ensures committedIndex == Max(old(committedIndex), old(TokenIndex()))
      ensures (baseIndex, cursorOffset) == PrunedWindow(old(baseIndex), old(cursorOffset), committedIndex, windowSize / 2)
      ensures baseIndex >= committedIndex && cursorOffset <= windowSize / 2 && position == old(position)
    {
      var currentIndex := TokenIndex();
      if currentIndex > committedIndex {
        committedIndex := currentIndex;
      }
      MaybePrune();
    }
  }

  /**
   * Peeking pulls tokens but never prunes, so a checkpoint taken before a
   * peek can always be restored.
   */
  method RestoreAfterPeek<Tok>(ctx: LazyContext<Tok>)
    requires ctx.Valid()
    modifies ctx
    ensures ctx.Valid() && ctx.View() == old(ctx.View())
  {
    var m := ctx.Checkpoint();
    var _ := ctx.Peek();
    var ok := ctx.Restore(m);
    assert ok;
  }
}
