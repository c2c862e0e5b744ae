/** Feeding items one at a time to a buffer that releases records and may refuse an item. */
module LineFold {
  import opened Common

  datatype Effect<+B, +R> = Effect(next: Option<B>, records: seq<R>)

  datatype Progress<+B, +R> = Progress(buffer: B, records: seq<R>, failed: bool)

  /** Buffer and records after feeding `items`; nothing is fed after a refusal. */
  function Feed<B, I, R>(effect: (B, I) -> Effect<B, R>, start: B, items: seq<I>): Progress<B, R> {
    if items == [] then Progress(start, [], false)
    else
      var before := Feed(effect, start, items[..|items| - 1]);
      if before.failed then before
      else
        var e := effect(before.buffer, items[|items| - 1]);
        if e.next.None? then Progress(before.buffer, before.records + e.records, true)
        else Progress(e.next.value, before.records + e.records, false)
  }

  lemma FeedSnoc<B, I, R>(effect: (B, I) -> Effect<B, R>, start: B, items: seq<I>, item: I)
    ensures var before := Feed(effect, start, items);
            var e := effect(before.buffer, item);
            Feed(effect, start, items + [item]) ==
            if before.failed then before
            else if e.next.None? then Progress(before.buffer, before.records + e.records, true)
            else Progress(e.next.value, before.records + e.records, false)
  {
    assert (items + [item])[..|items|] == items;
  }

  function After<B, R>(records: seq<R>, later: Progress<B, R>): Progress<B, R> {
    Progress(later.buffer, records + later.records, later.failed)
  }

  lemma {:induction false} FeedConcat<B, I, R>(effect: (B, I) -> Effect<B, R>, start: B, xs: seq<I>, ys: seq<I>)
    ensures var p := Feed(effect, start, xs);
            Feed(effect, start, xs + ys) == if p.failed then p else After(p.records, Feed(effect, p.buffer, ys))
  {
    var p := Feed(effect, start, xs);
    if ys == [] {
      assert xs + ys == xs && p.records + [] == p.records;
    } else {
      var init, last := ys[..|ys| - 1], ys[|ys| - 1];
      FeedConcat(effect, start, xs, init);
      assert xs + ys == (xs + init) + [last] && ys == init + [last];
      FeedSnoc(effect, start, xs + init, last);
      if !p.failed {
        FeedSnoc(effect, p.buffer, init, last);
        var q := Feed(effect, p.buffer, init);
        Regroup(p.records, q.records, effect(q.buffer, last).records);
      }
    }
  }

  lemma FeedOne<B, I, R>(effect: (B, I) -> Effect<B, R>, start: B, item: I)
    ensures var e := effect(start, item);
            Feed(effect, start, [item]) == Progress(if e.next.None? then start else e.next.value, e.records, e.next.None?)
  {
    FeedSnoc(effect, start, [], item);
    assert [] + [item] == [item];
    assert [] + effect(start, item).records == effect(start, item).records;
  }

  /** An invariant of the buffer, and of every record released. */
  lemma {:induction false} FeedKeeps<B(!new), I(!new), R(!new)>(
    effect: (B, I) -> Effect<B, R>, start: B, items: seq<I>, good: B -> bool, sane: I -> bool, fine: R -> bool)
    requires good(start) && forall i :: i in items ==> sane(i)
    requires forall b, i :: good(b) && sane(i) && effect(b, i).next.Some? ==> good(effect(b, i).next.value)
    requires forall b, i, r :: good(b) && sane(i) && r in effect(b, i).records ==> fine(r)
    ensures var p := Feed(effect, start, items); good(p.buffer) && forall r :: r in p.records ==> fine(r)
  {
    if items != [] {
      assert items[|items| - 1] in items;
      FeedKeeps(effect, start, items[..|items| - 1], good, sane, fine);
    }
  }

  /** An item that leaves every buffer as it was may be dropped. */
  lemma FeedIgnores<B(!new), I, R>(effect: (B, I) -> Effect<B, R>, start: B, xs: seq<I>, item: I, ys: seq<I>)
    requires forall b :: effect(b, item) == Effect(Some(b), [])
    ensures Feed(effect, start, xs + ([item] + ys)) == Feed(effect, start, xs + ys)
  {
    FeedConcat(effect, start, xs, [item] + ys);
    FeedConcat(effect, start, xs, ys);
    var p := Feed(effect, start, xs);
    FeedConcat(effect, p.buffer, [item], ys);
    FeedOne(effect, p.buffer, item);
    var q := Feed(effect, p.buffer, ys);
    assert [] + q.records == q.records;
  }
}
