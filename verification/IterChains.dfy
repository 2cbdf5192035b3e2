// Lazy push iterators: chains of map, filter, take and skip driven over a list by toList.

module IterChains {
  import opened Values

  /** One combinator; a callback may fail. */
  datatype Stage<!T> =
    | MapStage(f: T -> Outcome<T>)
    | FilterStage(p: T -> Outcome<bool>)
    | TakeStage(n: nat)
    | SkipStage(n: nat)

  // ----- The list functions a chain stands for -----

  /** The elements a stage yields, and the failure that ends them, if one does. */
  datatype Feed<+T> = Feed(items: seq<T>, failure: Option<Error>)

  function MapFeed<T>(f: T -> Outcome<T>, feed: Feed<T>): Feed<T>
    decreases |feed.items|
  {
    if feed.items == [] then feed else
    match f(feed.items[0])
    case Err(e) => Feed([], Some(e))
    case Ok(v) => Prepend([v], MapFeed(f, Feed(feed.items[1..], feed.failure)))
  }

  function FilterFeed<T>(p: T -> Outcome<bool>, feed: Feed<T>): Feed<T>
    decreases |feed.items|
  {
    if feed.items == [] then feed else
    match p(feed.items[0])
    case Err(e) => Feed([], Some(e))
    case Ok(keep) =>
      Prepend(if keep then [feed.items[0]] else [], FilterFeed(p, Feed(feed.items[1..], feed.failure)))
  }

  /** A failure after the nth element is never reached. */
  function TakeFeed<T>(n: nat, feed: Feed<T>): Feed<T> {
    if n <= |feed.items| then Feed(feed.items[..n], None) else feed
  }

  function SkipFeed<T>(n: nat, feed: Feed<T>): Feed<T> {
    if n <= |feed.items| then Feed(feed.items[n..], feed.failure) else Feed([], feed.failure)
  }

  function Prepend<T>(front: seq<T>, feed: Feed<T>): Feed<T> { Feed(front + feed.items, feed.failure) }

  function Apply<T>(s: Stage<T>, feed: Feed<T>): Feed<T> {
    match s
    case MapStage(f) => MapFeed(f, feed)
    case FilterStage(p) => FilterFeed(p, feed)
    case TakeStage(n) => TakeFeed(n, feed)
    case SkipStage(n) => SkipFeed(n, feed)
  }

  /** The whole chain, first stage first. */
  function Compose<T>(stages: seq<Stage<T>>, feed: Feed<T>): Feed<T> {
    if stages == [] then feed else Compose(stages[1..], Apply(stages[0], feed))
  }

  function ListResult<T>(feed: Feed<T>): Outcome<seq<T>> {
    match feed.failure
    case Some(e) => Err(e)
    case None => Ok(feed.items)
  }

  // ----- What each stage makes of what comes to it, element by element -----

  /** Up to the first element on which it fails, a callback has given these results. */
  ghost predicate Mapped<T>(f: T -> Outcome<T>, feed: Feed<T>, r: Feed<T>) {
    && |r.items| <= |feed.items|
    && (forall j :: 0 <= j < |r.items| ==> f(feed.items[j]) == Ok(r.items[j]))
    && (|r.items| == |feed.items| ==> r.failure == feed.failure)
    && (|r.items| < |feed.items| ==> r.failure.Some? && f(feed.items[|r.items|]) == Err(r.failure.value))
  }

  /** Of the first end elements, those at the positions idx are kept: the ones the callback says yes to. */
  ghost predicate Kept<T>(p: T -> Outcome<bool>, feed: Feed<T>, r: Feed<T>, idx: seq<nat>, end: nat) {
    && end <= |feed.items| && |idx| == |r.items|
    && (forall j :: 0 <= j < |idx| ==> idx[j] < end && r.items[j] == feed.items[idx[j]])
    && (forall j, k :: 0 <= j < k < |idx| ==> idx[j] < idx[k])
    && (forall i :: 0 <= i < end ==> p(feed.items[i]) == Ok(i in idx))
    && (end == |feed.items| ==> r.failure == feed.failure)
    && (end < |feed.items| ==> r.failure.Some? && p(feed.items[end]) == Err(r.failure.value))
  }

  /** r is what the stage makes of feed. */
  ghost predicate Makes<T>(s: Stage<T>, feed: Feed<T>, r: Feed<T>) {
    match s
    case MapStage(f) => Mapped(f, feed, r)
    case FilterStage(p) => exists idx, end :: Kept(p, feed, r, idx, end)
    case TakeStage(n) =>
      && r.items <= feed.items && |r.items| == (if n < |feed.items| then n else |feed.items|)
      && r.failure == if n <= |feed.items| then None else feed.failure
    case SkipStage(n) =>
      && |r.items| == (if n < |feed.items| then |feed.items| - n else 0)
      && (forall j :: 0 <= j < |r.items| ==> r.items[j] == feed.items[n + j])
      && r.failure == feed.failure
  }

  lemma {:induction false} MapMakes<T>(f: T -> Outcome<T>, feed: Feed<T>)
    ensures Mapped(f, feed, MapFeed(f, feed))
    decreases |feed.items|
  {
    if feed.items != [] && f(feed.items[0]).Ok? { MapMakes(f, Feed(feed.items[1..], feed.failure)); }
  }

  lemma {:induction false} FilterMakes<T>(p: T -> Outcome<bool>, feed: Feed<T>) returns (idx: seq<nat>, end: nat)
    ensures Kept(p, feed, FilterFeed(p, feed), idx, end)
    decreases |feed.items|
  {
    idx, end := [], 0;
    if feed.items != [] && p(feed.items[0]).Ok? {
      var rest := Feed(feed.items[1..], feed.failure);
      var tail, k := FilterMakes(p, rest);
      var keep := p(feed.items[0]).v;
      end, idx := k + 1, Shifted(keep, tail);
      KeptCons(p, feed, rest, FilterFeed(p, rest), tail, k, keep);
    }
  }

  /** The positions after one more element in front. */
  function Shifted(keep: bool, tail: seq<nat>): seq<nat> {
    (if keep then [0] else []) + seq(|tail|, j requires 0 <= j < |tail| => tail[j] + 1)
  }

  lemma ShiftedIn(keep: bool, tail: seq<nat>, i: nat)
    ensures i in Shifted(keep, tail) <==> if i == 0 then keep else i - 1 in tail
  {
    var s, front := Shifted(keep, tail), if keep then 1 else 0;
    if i > 0 && i - 1 in tail {
      var j :| 0 <= j < |tail| && tail[j] == i - 1;
      assert s[front + j] == i;
    }
    if i == 0 && keep { assert s[0] == 0; }
  }

  lemma KeptCons<T>(p: T -> Outcome<bool>, feed: Feed<T>, rest: Feed<T>, r: Feed<T>, tail: seq<nat>, k: nat, keep: bool)
    requires feed.items != [] && p(feed.items[0]) == Ok(keep) && rest == Feed(feed.items[1..], feed.failure)
    requires Kept(p, rest, r, tail, k)
    ensures Kept(p, feed, Prepend(if keep then [feed.items[0]] else [], r), Shifted(keep, tail), k + 1)
  {
    forall i | 0 <= i < k + 1 ensures p(feed.items[i]) == Ok(i in Shifted(keep, tail)) {
      ShiftedIn(keep, tail, i);
      if i > 0 { assert feed.items[i] == rest.items[i - 1]; }
    }
  }

  lemma StageMakes<T>(s: Stage<T>, feed: Feed<T>)
    ensures Makes(s, feed, Apply(s, feed))
  {
    match s
    case MapStage(f) => MapMakes(f, feed);
    case FilterStage(p) => var idx, end := FilterMakes(p, feed);
    case TakeStage(_) =>
    case SkipStage(_) =>
  }

  /** feeds goes from what comes to the chain, stage by stage, to what the chain makes of it. */
  ghost predicate Stagewise<T>(stages: seq<Stage<T>>, feeds: seq<Feed<T>>) {
    |feeds| == |stages| + 1 && forall i :: 0 <= i < |stages| ==> Makes(stages[i], feeds[i], feeds[i + 1])
  }

  lemma {:induction false} ChainMakes<T>(stages: seq<Stage<T>>, feed: Feed<T>) returns (feeds: seq<Feed<T>>)
    ensures Stagewise(stages, feeds) && feeds[0] == feed && feeds[|stages|] == Compose(stages, feed)
  {
    if stages == [] {
      feeds := [feed];
    } else {
      StageMakes(stages[0], feed);
      var rest := ChainMakes(stages[1..], Apply(stages[0], feed));
      feeds := [feed] + rest;
      forall i | 0 <= i < |stages| ensures Makes(stages[i], feeds[i], feeds[i + 1]) {
        if i > 0 { assert Makes(stages[1..][i - 1], rest[i - 1], rest[i]); }
      }
    }
  }

  // ----- One element pushed through the stages that are left -----

  datatype Signal = More | Stop | Fail(e: Error)

  datatype Pushed<!T> = Pushed(signal: Signal, left: seq<Stage<T>>, out: seq<T>)

  /** left is the chain with its counters at their new values, seen as the chain still to run. */
  function Push<T>(stages: seq<Stage<T>>, el: T): Pushed<T> {
    if stages == [] then Pushed(More, [], [el]) else
    var s, outer := stages[0], stages[1..];
    match s
    case MapStage(f) =>
      (match f(el)
       case Err(e) => Pushed(Fail(e), stages, [])
       case Ok(v) => Under(s, Push(outer, v)))
    case FilterStage(p) =>
      (match p(el)
       case Err(e) => Pushed(Fail(e), stages, [])
       case Ok(keep) => if keep then Under(s, Push(outer, el)) else Pushed(More, stages, []))
    case SkipStage(n) => if n > 0 then Pushed(More, [SkipStage(n - 1)] + outer, []) else Under(s, Push(outer, el))
    case TakeStage(n) =>
      var r := Push(outer, el);
      if !r.signal.More? then Under(s, r)
      else Pushed(if n <= 1 then Stop else More, [TakeStage(if n == 0 then 0 else n - 1)] + r.left, r.out)
  }

  function Under<T>(s: Stage<T>, r: Pushed<T>): Pushed<T> { r.(left := [s] + r.left) }

  /** No take has emitted all it may. */
  predicate Open<T>(stages: seq<Stage<T>>) {
    stages == [] || ((stages[0].TakeStage? ==> stages[0].n > 0) && Open(stages[1..]))
  }

  lemma {:induction false} ComposeNothing<T>(stages: seq<Stage<T>>)
    ensures Compose(stages, Feed([], None)) == Feed([], None)
  {
    if stages != [] { ComposeNothing(stages[1..]); }
  }

  lemma {:induction false} ComposeFailed<T>(stages: seq<Stage<T>>, e: Error)
    requires Open(stages)
    ensures Compose(stages, Feed([], Some(e))) == Feed([], Some(e))
  {
    if stages != [] { ComposeFailed(stages[1..], e); }
  }

  /** What the chain makes of a feed is what the push of its first element made of that, followed,
      if the signal was to go on, by what the chain that is left makes of the rest. */
  lemma {:induction false} PushComposes<T>(stages: seq<Stage<T>>, el: T, rest: Feed<T>)
    requires Open(stages)
    ensures
      var r := Push(stages, el);
      Compose(stages, Prepend([el], rest)) ==
        match r.signal
        case More => Prepend(r.out, Compose(r.left, rest))
        case Stop => Feed(r.out, None)
        case Fail(e) => Feed(r.out, Some(e))
    ensures Push(stages, el).signal.More? ==> Open(Push(stages, el).left)
    ensures Push(stages, el).signal.Fail? ==> Push(stages, el).out == []
    decreases |stages|, 0
  {
    if stages == [] { return; }
    var s, outer := stages[0], stages[1..];
    assert Prepend([el], rest).items[1..] == rest.items;
    match s
    case MapStage(f) =>
      if f(el).Err? {
        ComposeFailed(outer, f(el).e);
      } else {
        PushComposes(outer, f(el).v, MapFeed(f, rest));
        LeftUnder(s, Push(outer, f(el).v), rest);
      }
    case FilterStage(p) =>
      if p(el).Err? {
        ComposeFailed(outer, p(el).e);
      } else if p(el).v {
        PushComposes(outer, el, FilterFeed(p, rest));
        LeftUnder(s, Push(outer, el), rest);
      } else {
        assert Prepend([], FilterFeed(p, rest)) == FilterFeed(p, rest);
        assert Prepend([], Compose(stages, rest)) == Compose(stages, rest);
      }
    case SkipStage(n) => PushSkip(n, outer, el, rest);
    case TakeStage(n) => PushTake(n, outer, el, rest);
  }

  lemma LeftUnder<T>(s: Stage<T>, r: Pushed<T>, rest: Feed<T>)
    ensures Compose(Under(s, r).left, rest) == Compose(r.left, Apply(s, rest))
  {
    assert Under(s, r).left[1..] == r.left;
  }

  lemma {:induction false} PushSkip<T>(n: nat, outer: seq<Stage<T>>, el: T, rest: Feed<T>)
    requires Open(outer)
    ensures
      var stages := [SkipStage(n)] + outer;
      var r := Push(stages, el);
      && (Compose(stages, Prepend([el], rest)) ==
            match r.signal
            case More => Prepend(r.out, Compose(r.left, rest))
            case Stop => Feed(r.out, None)
            case Fail(e) => Feed(r.out, Some(e)))
      && (r.signal.More? ==> Open(r.left)) && (r.signal.Fail? ==> r.out == [])
    decreases |outer|, 1
  {
    var stages := [SkipStage(n)] + outer;
    assert stages[1..] == outer;
    var feed := Prepend([el], rest);
    if n > 0 {
      var left := [SkipStage(n - 1)] + outer;
      assert left[1..] == outer;
      assert n <= |feed.items| ==> feed.items[n..] == rest.items[n - 1..];
      assert SkipFeed(n, feed) == SkipFeed(n - 1, rest);
      assert Prepend([], Compose(left, rest)) == Compose(left, rest);
    } else {
      assert SkipFeed(0, feed) == feed && SkipFeed(0, rest) == rest;
      PushComposes(outer, el, rest);
      LeftUnder(SkipStage(0), Push(outer, el), rest);
      assert Under(SkipStage(0), Push(outer, el)).left[1..] == Push(outer, el).left;
    }
  }

  lemma {:induction false} PushTake<T>(n: nat, outer: seq<Stage<T>>, el: T, rest: Feed<T>)
    requires Open(outer) && n > 0
    ensures
      var stages := [TakeStage(n)] + outer;
      var r := Push(stages, el);
      && (Compose(stages, Prepend([el], rest)) ==
            match r.signal
            case More => Prepend(r.out, Compose(r.left, rest))
            case Stop => Feed(r.out, None)
            case Fail(e) => Feed(r.out, Some(e)))
      && (r.signal.More? ==> Open(r.left)) && (r.signal.Fail? ==> r.out == [])
    decreases |outer|, 1
  {
    var stages := [TakeStage(n)] + outer;
    assert stages[1..] == outer;
    var feed := Prepend([el], rest);
    assert n <= |feed.items| ==> feed.items[..n] == [el] + rest.items[..n - 1];
    assert TakeFeed(n, feed) == Prepend([el], TakeFeed(n - 1, rest));
    PushComposes(outer, el, TakeFeed(n - 1, rest));
    var r := Push(outer, el);
    if r.signal.More? {
      var left := [TakeStage(n - 1)] + r.left;
      assert left[1..] == r.left;
      if n == 1 {
        assert TakeFeed(0, rest) == Feed([], None);
        ComposeNothing(r.left);
        assert r.out + [] == r.out;
      }
    }
  }

  // ----- The chain as it is driven -----

  ghost predicate Counts<T>(stages: seq<Stage<T>>, counters: seq<nat>) {
    && |counters| == |stages|
    && forall i :: 0 <= i < |stages| && (stages[i].TakeStage? || stages[i].SkipStage?) ==> counters[i] <= stages[i].n
  }

  ghost function StageLeft<T>(s: Stage<T>, counter: nat): Stage<T>
    requires s.TakeStage? || s.SkipStage? ==> counter <= s.n
  {
    match s
    case TakeStage(n) => TakeStage(n - counter)
    case SkipStage(n) => SkipStage(n - counter)
    case _ => s
  }

  /** The stages from i on with what their counters leave of them. */
  ghost function Left<T>(stages: seq<Stage<T>>, counters: seq<nat>, i: nat): seq<Stage<T>>
    requires Counts(stages, counters) && i <= |stages|
    decreases |stages| - i
  {
    if i == |stages| then [] else [StageLeft(stages[i], counters[i])] + Left(stages, counters, i + 1)
  }

  lemma {:induction false} FreshLeft<T>(stages: seq<Stage<T>>, counters: seq<nat>, i: nat)
    requires Counts(stages, counters) && i <= |stages| && forall j :: 0 <= j < |stages| ==> counters[j] == 0
    ensures Left(stages, counters, i) == stages[i..]
    decreases |stages| - i
  {
    if i < |stages| { FreshLeft(stages, counters, i + 1); }
  }

  lemma {:induction false} LeftSame<T>(stages: seq<Stage<T>>, counters: seq<nat>, counters': seq<nat>, i: nat)
    requires Counts(stages, counters) && Counts(stages, counters') && i <= |stages|
    requires forall j :: i <= j < |stages| ==> counters[j] == counters'[j]
    ensures Left(stages, counters, i) == Left(stages, counters', i)
    decreases |stages| - i
  {
    if i < |stages| { LeftSame(stages, counters, counters', i + 1); }
  }

  /** One drive of a chain: counters start afresh, and out collects what reaches toList. */
  class Drive<T> {
    const stages: seq<Stage<T>>
    var counters: seq<nat>
    var out: seq<T>

    constructor (stages: seq<Stage<T>>)
      ensures this.stages == stages && Valid() && out == [] && Remaining(0) == stages
    {
      this.stages := stages;
      counters, out := seq(|stages|, _ => 0), [];
      new;
      FreshLeft(stages, counters, 0);
    }

    ghost predicate Valid()
      reads this
    {
      Counts(stages, counters)
    }

    ghost function Remaining(i: nat): seq<Stage<T>>
      requires Valid() && i <= |stages|
      reads this
    {
      Left(stages, counters, i)
    }

    /** The closure of stage i: hand el on, drop it, or say that no more is wanted. */
    method Yield(i: nat, el: T) returns (signal: Signal)
      requires Valid() && i <= |stages| && Open(Remaining(i))
      modifies this
      ensures Valid() && forall j :: 0 <= j < i ==> counters[j] == old(counters)[j]
      ensures Pushed(signal, Remaining(i), out) ==
          Push(old(Remaining(i)), el).(out := old(out) + Push(old(Remaining(i)), el).out)
      decreases |stages| - i
    {
      if i == |stages| {
        out := out + [el];
        return More;
      }
      assert Remaining(i)[1..] == Remaining(i + 1) && Remaining(i)[0] == StageLeft(stages[i], counters[i]);
      match stages[i]
      case MapStage(f) =>
        var res := f(el);
        if res.Err? {
          assert out + [] == out;
          return Fail(res.e);
        }
        signal := Yield(i + 1, res.v);
      case FilterStage(p) =>
        var res := p(el);
        if res.Err? {
          assert out + [] == out;
          return Fail(res.e);
        }
        if !res.v {
          assert out + [] == out;
          return More;
        }
        signal := Yield(i + 1, el);
      case SkipStage(n) =>
        if counters[i] < n {
          LeftSame(stages, counters, counters[i := counters[i] + 1], i + 1);
          counters := counters[i := counters[i] + 1];
          assert out + [] == out;
          return More;
        }
        signal := Yield(i + 1, el);
      case TakeStage(n) =>
        signal := Yield(i + 1, el);
        if !signal.More? { return; }
        LeftSame(stages, counters, counters[i := counters[i] + 1], i + 1);
        counters := counters[i := counters[i] + 1];
        signal := if counters[i] < n then More else Stop;
    }
  }

  /** A take of nothing, anywhere in the chain, never drives what is before it. */
  predicate TakesNothing<T>(stages: seq<Stage<T>>) {
    exists i :: 0 <= i < |stages| && stages[i] == TakeStage(0)
  }

  lemma {:induction false} OpenUnlessNothing<T>(stages: seq<Stage<T>>)
    ensures Open(stages) <==> !TakesNothing(stages)
  {
    if stages != [] {
      OpenUnlessNothing(stages[1..]);
      if TakesNothing(stages) {
        var i :| 0 <= i < |stages| && stages[i] == TakeStage(0);
        if i > 0 { assert stages[1..][i - 1] == TakeStage(0); }
      }
      if TakesNothing(stages[1..]) {
        var i :| 0 <= i < |stages[1..]| && stages[1..][i] == TakeStage(0);
        assert stages[i + 1] == TakeStage(0);
      }
    }
  }

  lemma {:induction false} NothingTaken<T>(stages: seq<Stage<T>>, feed: Feed<T>)
    requires TakesNothing(stages)
    ensures Compose(stages, feed) == Feed([], None)
  {
    var i :| 0 <= i < |stages| && stages[i] == TakeStage(0);
    if i == 0 {
      assert feed.items[..0] == [];
      ComposeNothing(stages[1..]);
    } else {
      assert stages[1..][i - 1] == TakeStage(0);
      NothingTaken(stages[1..], Apply(stages[0], feed));
    }
  }

  /** toList over a chain on a list: the composed list functions, on every drive. pulled counts the
      elements the source was asked for, and feeds is what there is before and after each stage. */
  method ToList<T>(stages: seq<Stage<T>>, list: seq<T>)
    returns (r: Outcome<seq<T>>, ghost pulled: nat, ghost feeds: seq<Feed<T>>)
    ensures r == ListResult(Compose(stages, Feed(list, None)))
    ensures Stagewise(stages, feeds) && feeds[0] == Feed(list, None)
    ensures r == if feeds[|stages|].failure.Some? then Err(feeds[|stages|].failure.value) else Ok(feeds[|stages|].items)
    ensures pulled == Pulls(stages, list)
  {
    feeds := ChainMakes(stages, Feed(list, None));
    OpenUnlessNothing(stages);
    if exists i :: 0 <= i < |stages| && stages[i] == TakeStage(0) {
      NothingTaken(stages, Feed(list, None));
      return Ok([]), 0, feeds;
    }
    r, pulled := DriveAll(stages, list);
  }

  /** The source loop of one drive. */
  method DriveAll<T>(stages: seq<Stage<T>>, list: seq<T>) returns (r: Outcome<seq<T>>, ghost pulled: nat)
    requires Open(stages)
    ensures r == ListResult(Compose(stages, Feed(list, None)))
    ensures pulled == Pulls(stages, list)
  {
    pulled := 0;
    OpenUnlessNothing(stages);
    var drive := new Drive(stages);
    assert list[0..] == list;
    PrependNothing(Compose(stages, Feed(list, None)));
    for i := 0 to |list|
      invariant fresh(drive) && drive.Valid() && drive.stages == stages && pulled == i
      invariant Underway(stages, list, i, drive.Remaining(0), drive.out)
    {
      StepKeeps(stages, list, i, drive.Remaining(0), drive.out);
      var signal := drive.Yield(0, list[i]);
      pulled := pulled + 1;
      if signal.Stop? { return Ok(drive.out), pulled; }
      if signal.Fail? { return Err(signal.e), pulled; }
    }
    ComposeNothing(drive.Remaining(0));
    assert drive.out + [] == drive.out;
    return Ok(drive.out), pulled;
  }

  /** After i elements: what has come out, followed by what the chain that is left makes of the
      rest, is what the whole chain makes of the list. */
  ghost predicate Underway<T>(stages: seq<Stage<T>>, list: seq<T>, i: nat, left: seq<Stage<T>>, out: seq<T>)
    requires i <= |list|
  {
    && Open(left)
    && Prepend(out, Compose(left, Feed(list[i..], None))) == Compose(stages, Feed(list, None))
    && i + Pulls(left, list[i..]) == Pulls(stages, list)
  }

  lemma StepKeeps<T>(stages: seq<Stage<T>>, list: seq<T>, i: nat, left: seq<Stage<T>>, out: seq<T>)
    requires i < |list| && Underway(stages, list, i, left, out)
    ensures
      var p := Push(left, list[i]);
      match p.signal
      case More => Underway(stages, list, i + 1, p.left, out + p.out)
      case Stop => Compose(stages, Feed(list, None)) == Feed(out + p.out, None) && Pulls(stages, list) == i + 1
      case Fail(e) => Compose(stages, Feed(list, None)).failure == Some(e) && Pulls(stages, list) == i + 1
  {
    var rest := Feed(list[i + 1..], None);
    assert list[i..] == [list[i]] + list[i + 1..] && list[i..][1..] == list[i + 1..];
    assert Feed(list[i..], None) == Prepend([list[i]], rest);
    PushComposes(left, list[i], rest);
    OpenUnlessNothing(left);
    var p := Push(left, list[i]);
    if p.signal.More? { PrependTwice(out, p.out, Compose(p.left, rest)); }
  }

  lemma PrependNothing<T>(feed: Feed<T>)
    ensures Prepend([], feed) == feed
  {
  }

  lemma PrependTwice<T>(a: seq<T>, b: seq<T>, feed: Feed<T>)
    ensures Prepend(a + b, feed) == Prepend(a, Prepend(b, feed))
  {
  }

  /** How many elements a drive asks the source for: none once a push has answered stop or failed. */
  function Pulls<T>(stages: seq<Stage<T>>, list: seq<T>): (n: nat)
    ensures n <= |list|
    decreases |list|
  {
    if list == [] || TakesNothing(stages) then 0 else
    var r := Push(stages, list[0]);
    if r.signal.More? then 1 + Pulls(r.left, list[1..]) else 1
  }

  // ----- What is pulled, by what the list functions make of it -----

  /** Pushing through two chains in a row: the second is pushed what the first lets out. */
  lemma {:induction false} PushConcat<T>(pre: seq<Stage<T>>, post: seq<Stage<T>>, el: T)
    ensures
      var p, r := Push(pre, el), Push(pre + post, el);
      && |p.out| <= 1 && (p.signal.Fail? ==> p.out == [])
      && (p.out == [] ==> r == Pushed(p.signal, p.left + post, []))
      && (|p.out| == 1 ==>
            var q := Push(post, p.out[0]);
            if q.signal.More? then r == Pushed(p.signal, p.left + q.left, q.out)
            else r.signal == q.signal && r.out == q.out)
  {
    if pre == [] {
      assert pre + post == post && [] + Push(post, el).left == Push(post, el).left;
    } else {
      var s, outer := pre[0], pre[1..];
      assert (pre + post)[1..] == outer + post && (pre + post)[0] == s;
      var v := if s.MapStage? && s.f(el).Ok? then s.f(el).v else el;
      PushConcat(outer, post, v);
      ConcatUnder(s, Push(outer, v), post);
      if |Push(outer, v).out| == 1 { ConcatLeft(s, Push(outer, v).left, Push(post, Push(outer, v).out[0]).left); }
      if s.SkipStage? && s.n > 0 {
        assert [SkipStage(s.n - 1)] + outer + post == [SkipStage(s.n - 1)] + (outer + post);
      }
      if s.TakeStage? {
        var t: Stage<T> := TakeStage(if s.n == 0 then 0 else s.n - 1);
        ConcatUnder(t, Push(outer, v), post);
        if |Push(outer, v).out| == 1 { ConcatLeft(t, Push(outer, v).left, Push(post, Push(outer, v).out[0]).left); }
      }
    }
  }

  lemma ConcatUnder<T>(s: Stage<T>, r: Pushed<T>, post: seq<Stage<T>>)
    ensures Under(s, r).left + post == [s] + (r.left + post)
  {
  }

  lemma ConcatLeft<T>(s: Stage<T>, a: seq<Stage<T>>, b: seq<Stage<T>>)
    ensures [s] + a + b == [s] + (a + b)
  {
  }

  /** What a chain makes of the first k elements, its failure included. */
  function Made<T>(stages: seq<Stage<T>>, list: seq<T>, k: nat): Feed<T>
    requires k <= |list|
  {
    Compose(stages, Feed(list[..k], None))
  }

  /** One push seen through Made. */
  lemma MadeStep<T>(stages: seq<Stage<T>>, list: seq<T>, k: nat)
    requires Open(stages) && 0 < k <= |list|
    ensures
      var r := Push(stages, list[0]);
      && (r.signal.More? ==> Open(r.left) && Made(stages, list, k) == Prepend(r.out, Made(r.left, list[1..], k - 1)))
      && (r.signal.Stop? ==> Made(stages, list, k) == Feed(r.out, None))
      && (r.signal.Fail? ==> Made(stages, list, k) == Feed([], Some(r.signal.e)))
  {
    var rest := Feed(list[1..][..k - 1], None);
    assert Feed(list[..k], None) == Prepend([list[0]], rest);
    PushComposes(stages, list[0], rest);
  }

  ghost predicate Whole<T>(stages: seq<Stage<T>>, pre: seq<Stage<T>>, n: nat, post: seq<Stage<T>>) {
    stages == pre + [TakeStage(n)] + post
  }

  /** One push through a chain with a take in it: if the chain is to go on, so is what is before the
      take, and the take has still to let out what has not yet come. */
  lemma TakeStep<T>(stages: seq<Stage<T>>, pre: seq<Stage<T>>, n: nat, post: seq<Stage<T>>, el: T)
    returns (pre': seq<Stage<T>>, n': nat, post': seq<Stage<T>>)
    requires Whole(stages, pre, n, post) && n > 0 && Push(stages, el).signal.More?
    ensures Push(pre, el).signal.More? && pre' == Push(pre, el).left
    ensures Whole(Push(stages, el).left, pre', n', post') && n' == n - |Push(pre, el).out| && n' > 0
  {
    var p, tail := Push(pre, el), [TakeStage(n)] + post;
    assert stages == pre + tail && tail[1..] == post;
    PushConcat(pre, tail, el);
    pre' := p.left;
    if p.out == [] {
      n', post' := n, post;
      assert Push(stages, el).left == pre' + [TakeStage(n')] + post';
    } else {
      n', post' := n - 1, Push(post, p.out[0]).left;
      assert Push(stages, el).left == pre' + ([TakeStage(n')] + post') == pre' + [TakeStage(n')] + post';
    }
  }

  lemma {:induction false} OpenParts<T>(a: seq<Stage<T>>, b: seq<Stage<T>>)
    ensures Open(a + b) <==> Open(a) && Open(b)
  {
    if a == [] { assert a + b == b; } else {
      assert (a + b)[1..] == a[1..] + b;
      OpenParts(a[1..], b);
    }
  }

  /** Wherever a take(n) stands in a chain, the source is asked for nothing once what is before the
      take has let n elements through: k elements that make n of them are all that is ever pulled. */
  lemma {:induction false} TakePulls<T>(pre: seq<Stage<T>>, n: nat, post: seq<Stage<T>>, list: seq<T>, k: nat)
    requires k <= |list| && |Made(pre, list, k).items| >= n
    ensures Pulls(pre + [TakeStage(n)] + post, list) <= k
    decreases k
  {
    var stages := pre + [TakeStage(n)] + post;
    if TakesNothing(stages) { return; }
    OpenUnlessNothing(stages);
    OpenParts(pre + [TakeStage(n)], post);
    OpenParts(pre, [TakeStage(n)]);
    assert stages[|pre|] == TakeStage(n);
    assert n > 0;
    if k == 0 {
      ComposeNothing(pre);
    } else if Push(stages, list[0]).signal.More? {
      var pre', n', post' := TakeStep(stages, pre, n, post, list[0]);
      MadeStep(pre, list, k);
      TakePulls(pre', n', post', list[1..], k - 1);
    }
  }

  /** And when nothing follows the take, no sooner: a drive that ends before what is before the take
      would end it has pulled just enough for n elements. */
  lemma {:induction false} TakePullsEnough<T>(pre: seq<Stage<T>>, n: nat, list: seq<T>)
    requires Open(pre)
    ensures Pulls(pre + [TakeStage(n)], list) <= Pulls(pre, list)
    ensures
      var p := Pulls(pre + [TakeStage(n)], list);
      p < Pulls(pre, list) ==> |Made(pre, list, p).items| >= n
    decreases |list|
  {
    var stages := pre + [TakeStage(n)];
    OpenUnlessNothing(stages);
    OpenUnlessNothing(pre);
    OpenParts(pre, [TakeStage(n)]);
    assert stages == pre + [TakeStage(n)] + [];
    if list != [] && n > 0 {
      var p := Push(pre, list[0]);
      PushConcat(pre, [TakeStage(n)], list[0]);
      assert stages[|pre|..][1..] == [] && stages[|pre|..] == [TakeStage(n)];
      MadeStep(pre, list, 1);
      if Push(stages, list[0]).signal.More? {
        var pre', n', post' := TakeStep(stages, pre, n, [], list[0]);
        assert post' == [] && pre' + [TakeStage(n')] + post' == pre' + [TakeStage(n')];
        TakePullsEnough(pre', n', list[1..]);
        if Pulls(stages, list) < Pulls(pre, list) { MadeStep(pre, list, Pulls(stages, list)); }
      }
    }
  }

  /** Nothing after the last element pulled has a say in the result. */
  lemma {:induction false} PulledDecides<T>(stages: seq<Stage<T>>, list: seq<T>, rest: Feed<T>)
    requires Pulls(stages, list) < |list|
    ensures Compose(stages, Prepend(list[..Pulls(stages, list)], rest)) == Compose(stages, Feed(list, None))
    decreases |list|
  {
    var p := Pulls(stages, list);
    OpenUnlessNothing(stages);
    if TakesNothing(stages) {
      NothingTaken(stages, Prepend(list[..p], rest));
      NothingTaken(stages, Feed(list, None));
    } else {
      var r, tail := Push(stages, list[0]), Feed(list[1..], None);
      var rest' := Prepend(list[1..][..p - 1], rest);
      assert Feed(list, None) == Prepend([list[0]], tail);
      assert Prepend(list[..p], rest) == Prepend([list[0]], rest');
      PushComposes(stages, list[0], tail);
      PushComposes(stages, list[0], rest');
      if r.signal.More? { PulledDecides(r.left, list[1..], rest); }
    }
  }

  /** A failure surfaces exactly when the failing element is pulled: it is the last one pulled, and
      with any fewer elements the drive would not have failed. */
  lemma {:induction false} FailurePulledLast<T>(stages: seq<Stage<T>>, list: seq<T>, k: nat)
    requires Compose(stages, Feed(list, None)).failure.Some? && k <= |list|
    ensures Pulls(stages, list) > 0
    ensures Made(stages, list, k).failure ==
        if k < Pulls(stages, list) then None else Compose(stages, Feed(list, None)).failure
    decreases |list|
  {
    OpenUnlessNothing(stages);
    if TakesNothing(stages) { NothingTaken(stages, Feed(list, None)); }
    if list == [] { ComposeNothing(stages); }
    assert list[..|list|] == list;
    MadeStep(stages, list, |list|);
    assert list[1..][..|list| - 1] == list[1..];
    if k == 0 {
      ComposeNothing(stages);
    } else {
      MadeStep(stages, list, k);
    }
    if Push(stages, list[0]).signal.More? {
      FailurePulledLast(Push(stages, list[0]).left, list[1..], if k > 0 then k - 1 else 0);
    }
  }
}
