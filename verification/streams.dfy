/** Single-pass record streams and the empty-split filter
    (`huggingface_dataset_builder._remove_empty_splits`). */
module Streams {
  import opened Wrappers
  import opened Errors
  import opened Features

  /** Everything a Python iterator produces when drained: its items in order, then
      either `StopIteration` (`failure == None`) or the exception it raises. */
  datatype Stream<T> = Stream(items: seq<T>, failure: Option<Error>)

  /** `iter(stream)` after `pos` items have been drawn. */
  datatype Cursor<T> = Cursor(stream: Stream<T>, pos: nat)

  predicate ValidCursor<T>(c: Cursor<T>) {
    c.pos <= |c.stream.items|
  }

  datatype Step<T> = Yield(item: T, rest: Cursor<T>) | Stop | Raise(error: Error)

  /** `next(iterator)`: the next item, `StopIteration`, or the stream's exception. */
  function Next<T>(c: Cursor<T>): (s: Step<T>)
    requires ValidCursor(c)
    ensures s.Yield? <==> c.pos < |c.stream.items|
    ensures s.Yield? ==> s.item == c.stream.items[c.pos] && s.rest == Cursor(c.stream, c.pos + 1)
    ensures s.Raise? <==> c.pos == |c.stream.items| && c.stream.failure.Some?
    ensures s.Raise? ==> s.error == c.stream.failure.value
  {
    if c.pos < |c.stream.items| then Yield(c.stream.items[c.pos], Cursor(c.stream, c.pos + 1))
    else if c.stream.failure.Some? then Raise(c.stream.failure.value)
    else Stop
  }

  /** `itertools.chain(head, tail)`: the items of `head`, then whatever `tail` still has. */
  datatype Chain<T> = Chain(head: seq<T>, tail: Cursor<T>)

  predicate ValidChain<T>(ch: Chain<T>) {
    ValidCursor(ch.tail)
  }

  /** What draining a chain produces. */
  function Drain<T>(ch: Chain<T>): Stream<T>
    requires ValidChain(ch)
  {
    Stream(ch.head + ch.tail.stream.items[ch.tail.pos..], ch.tail.stream.failure)
  }

  /** `_EMPTY_SPLIT_WARNING_MSG % split` */
  function EmptySplitWarning(split: string): string {
    split + " split doesn't have any examples"
  }

  /** What the filter leaves behind: the warnings logged, in order, and either the
      surviving splits, each as a chain, or the exception that ended the call. The log
      is kept on both paths: a warning is written before a later split raises. */
  datatype Filtered<T> = Filtered(warnings: seq<string>, outcome: Result<seq<Named<Chain<T>>>, Error>)

  /** A stream whose first `next` raises. */
  predicate RaisesAtOnce<T>(s: Stream<T>) {
    s.items == [] && s.failure.Some?
  }

  /** The position of the first split whose first `next` raises, if any. */
  function FirstRaising<T>(splits: seq<Named<Stream<T>>>): (r: Option<nat>)
    ensures r.None? <==> forall j :: 0 <= j < |splits| ==> !RaisesAtOnce(splits[j].item)
    ensures r.Some? ==> r.value < |splits| && RaisesAtOnce(splits[r.value].item) &&
                        forall k :: 0 <= k < r.value ==> !RaisesAtOnce(splits[k].item)
  {
    if splits == [] then None
    else if RaisesAtOnce(splits[0].item) then Some(0)
    else
      var rest := FirstRaising(splits[1..]);
      assert forall j :: 1 <= j < |splits| ==> splits[1..][j - 1] == splits[j];
      if rest.None? then None else Some(rest.value + 1)
  }

  /** The splits with at least one item, in their original order. */
  function NonEmptySplits<T>(splits: seq<Named<Stream<T>>>): (r: seq<Named<Stream<T>>>)
    ensures forall k :: 0 <= k < |r| ==> exists j :: 0 <= j < |splits| && r[k] == splits[j] && splits[j].item.items != []
  {
    if splits == [] then []
    else
      var rest := NonEmptySplits(splits[1..]);
      assert forall j :: 1 <= j < |splits| ==> splits[1..][j - 1] == splits[j];
      if splits[0].item.items != [] then [splits[0]] + rest else rest
  }

  /** The splits that stop at once, by name, in their original order. */
  function EmptySplitNames<T>(splits: seq<Named<Stream<T>>>): (r: seq<string>)
    ensures forall k :: 0 <= k < |r| ==> exists j :: 0 <= j < |splits| && r[k] == splits[j].name && splits[j].item == Stream([], None)
  {
    if splits == [] then []
    else
      var rest := EmptySplitNames(splits[1..]);
      assert forall j :: 1 <= j < |splits| ==> splits[1..][j - 1] == splits[j];
      if splits[0].item.items == [] && splits[0].item.failure.None? then [splits[0].name] + rest else rest
  }

  /** `kept` holds, split for split, the same names and streams as `splits`, each with
      its first item drawn and chained back in front. */
  ghost predicate PeekedSplits<T>(kept: seq<Named<Chain<T>>>, splits: seq<Named<Stream<T>>>) {
    && |kept| == |splits|
    && forall k :: 0 <= k < |kept| ==>
      && kept[k].name == splits[k].name
      && ValidChain(kept[k].item)
      && Drain(kept[k].item) == splits[k].item
      && |kept[k].item.head| == 1
      && kept[k].item.tail.pos == 1
  }

  /** The splits the filter looks at before one raises: all of them, or those in front
      of the first split whose first `next` raises. */
  function Examined<T>(splits: seq<Named<Stream<T>>>): (r: seq<Named<Stream<T>>>)
    ensures |r| <= |splits| && r == splits[..|r|]
    ensures forall k :: 0 <= k < |r| ==> !RaisesAtOnce(r[k].item)
    ensures |r| < |splits| ==> RaisesAtOnce(splits[|r|].item)
  {
    match FirstRaising(splits)
    case None => splits
    case Some(i) => splits[..i]
  }

  /** One warning per name, in order. */
  function Warnings(names: seq<string>): (ws: seq<string>)
    ensures |ws| == |names|
    ensures forall k :: 0 <= k < |ws| ==> ws[k] == EmptySplitWarning(names[k])
  {
    seq(|names|, k requires 0 <= k < |names| => EmptySplitWarning(names[k]))
  }

  /** `_remove_empty_splits`: draw one item from every split in order. A split that stops
      at once is dropped with one warning naming it; any other split is kept as the
      drawn item chained in front of its iterator. An exception raised by a split's
      first `next` is not caught (only `StopIteration` is) and ends the whole call,
      after the warnings for the empty splits in front of it have been logged. */
  function RemoveEmptySplits<T>(splits: seq<Named<Stream<T>>>): (r: Filtered<T>)
    ensures r.outcome.Err? <==> FirstRaising(splits).Some?
    ensures r.outcome.Err? ==> r.outcome.error == splits[FirstRaising(splits).value].item.failure.value
    ensures r.outcome.Ok? ==> PeekedSplits(r.outcome.value, NonEmptySplits(splits))
    ensures r.warnings == Warnings(EmptySplitNames(Examined(splits)))
  {
    if splits == [] then Filtered([], Ok([]))
    else
      var split := splits[0];
      var step := Next(Cursor(split.item, 0));
      if step.Raise? then Filtered([], Err(step.error))
      else
        var rest := RemoveEmptySplits(splits[1..]);
        ExaminedCons(splits);
        if step.Stop? then
          WarningsCons(split.name, EmptySplitNames(Examined(splits[1..])));
          Filtered([EmptySplitWarning(split.name)] + rest.warnings, rest.outcome)
        else if rest.outcome.Err? then rest
        else
          PeekedCons(split, rest.outcome.value, NonEmptySplits(splits[1..]));
          Filtered(rest.warnings, Ok([Named(split.name, Chain([step.item], step.rest))] + rest.outcome.value))
  }

  /** A split that does not raise at once is examined, followed by the rest. */
  lemma ExaminedCons<T>(splits: seq<Named<Stream<T>>>)
    requires splits != [] && !RaisesAtOnce(splits[0].item)
    ensures Examined(splits) == [splits[0]] + Examined(splits[1..])
  {
    var tail := FirstRaising(splits[1..]);
    if tail.Some? {
      assert splits[..tail.value + 1] == [splits[0]] + splits[1..][..tail.value];
    } else {
      assert splits == [splits[0]] + splits[1..];
    }
  }

  /** Chaining the peeked item in front of the iterator loses nothing. */
  lemma PeekedCons<T>(split: Named<Stream<T>>, kept: seq<Named<Chain<T>>>, splits: seq<Named<Stream<T>>>)
    requires split.item.items != []
    requires PeekedSplits(kept, splits)
    ensures PeekedSplits([Named(split.name, Chain([split.item.items[0]], Cursor(split.item, 1)))] + kept, [split] + splits)
  {
    var s := split.item;
    assert s.items == [s.items[0]] + s.items[1..];
  }

  lemma WarningsCons(name: string, names: seq<string>)
    ensures Warnings([name] + names) == [EmptySplitWarning(name)] + Warnings(names)
  {
  }

  /** When no split raises at once, every split is either kept or warned about. */
  lemma {:induction false} SplitsPartitioned<T>(splits: seq<Named<Stream<T>>>)
    requires FirstRaising(splits).None?
    ensures |NonEmptySplits(splits)| + |EmptySplitNames(splits)| == |splits|
  {
    if splits != [] {
      assert !RaisesAtOnce(splits[0].item);
      assert forall j :: 1 <= j < |splits| ==> splits[1..][j - 1] == splits[j];
      SplitsPartitioned(splits[1..]);
    }
  }

  /** A successful filter keeps or warns about every split exactly once. */
  lemma KeptOrWarned<T>(splits: seq<Named<Stream<T>>>)
    requires RemoveEmptySplits(splits).outcome.Ok?
    ensures |RemoveEmptySplits(splits).outcome.value| + |RemoveEmptySplits(splits).warnings| == |splits|
  {
    SplitsPartitioned(splits);
  }

  /** A split that stops at once followed by one with items: the second is kept with its
      first item peeked, and the first is warned about. */
  lemma EmptyThenNonEmpty<T>(empty: string, full: string, s: Stream<T>)
    requires s.items != []
    ensures RemoveEmptySplits([Named(empty, Stream([], None)), Named(full, s)])
         == Filtered([EmptySplitWarning(empty)], Ok([Named(full, Chain([s.items[0]], Cursor(s, 1)))]))
  {
    var splits := [Named(empty, Stream([], None)), Named(full, s)];
    var tail := splits[1..];
    assert tail == [Named(full, s)] && tail[1..] == [];
    assert RemoveEmptySplits(tail[1..]) == Filtered([], Ok([]));
    assert Next(Cursor(s, 0)) == Yield(s.items[0], Cursor(s, 1));
    var kept := [Named(full, Chain([s.items[0]], Cursor(s, 1)))];
    assert kept + [] == kept;
    assert tail[0].item == s && tail[0].name == full;
    assert RemoveEmptySplits(tail) == Filtered([], Ok(kept));
    assert Next(Cursor(splits[0].item, 0)).Stop?;
    assert [EmptySplitWarning(empty)] + [] == [EmptySplitWarning(empty)];
  }

  /** An empty split in front of one that raises at once: the call raises that
      exception, and the warning for the empty split has already been logged. */
  lemma WarnedBeforeRaise<T>(empty: Named<Stream<T>>, failing: Named<Stream<T>>)
    requires empty.item == Stream([], None) && RaisesAtOnce(failing.item)
    ensures RemoveEmptySplits([empty, failing])
         == Filtered([EmptySplitWarning(empty.name)], Err(failing.item.failure.value))
  {
    var splits := [empty, failing];
    assert splits[1..] == [failing];
    assert splits[1..][1..] == [];
    assert Next(Cursor(splits[0].item, 0)).Stop?;
    assert [EmptySplitWarning(empty.name)] + [] == [EmptySplitWarning(empty.name)];
  }
}
