/** The step-preallocating KV cache against the concatenating one. A `Row` stands for everything a
    buffer holds at one index of its token axis (all batches, heads and head dimensions). */
module KvCache {
  import opened Indexing
  import opened Wrappers

  class ConcatKeyValueCache<Row> {
    var keys: Option<seq<Row>>
    var values: Option<seq<Row>>
    var offset: nat

    constructor ()
      ensures keys == None && values == None && offset == 0
    {
      keys, values, offset := None, None, 0;
    }

    ghost predicate Holds(k: seq<Row>, v: seq<Row>)
      reads this
    {
      && (keys == Some(k) || (keys == None && k == []))
      && (values == Some(v) || (values == None && v == []))
      && keys.Some? == values.Some? && offset == |k|
    }

    method UpdateAndFetch(newKeys: seq<Row>, newValues: seq<Row>, ghost k: seq<Row>, ghost v: seq<Row>)
      returns (outKeys: seq<Row>, outValues: seq<Row>)
      requires Holds(k, v)
      modifies this
      ensures outKeys == k + newKeys && outValues == v + newValues && Holds(outKeys, outValues)
    {
      if keys.Some? && values.Some? {
        keys := Some(keys.value + newKeys);
        values := Some(values.value + newValues);
      } else {
        keys := Some(newKeys);
        values := Some(newValues);
      }
      offset := |keys.value|;
      return keys.value, values.value;
    }
  }

  /** Rows added when numNew tokens arrive: whole steps, as few as hold them. */
  function Grown(numNew: nat, step: nat): nat
    requires step > 0
  {
    if numNew == 0 then 0
    else if numNew <= step then step
    else step + Grown(numNew - step, step)
  }

  /** Buffer length after `numNew` tokens arrive at `offset`. */
  function NextCapacity(capacity: nat, offset: nat, numNew: nat, step: nat): nat
    requires step > 0
  {
    if offset + numNew <= capacity then capacity
    else (if offset % step != 0 then offset else capacity) + Grown(numNew, step)
  }

  class KVCache<Row> {
    var keys: Option<seq<Row>>
    var values: Option<seq<Row>>
    var offset: nat
    const step: nat
    const zero: Row      // a row of a freshly zeroed buffer

    ghost predicate Valid()
      reads this
    {
      && step > 0 && keys.Some? == values.Some?
      && Capacity() == (if values.Some? then |values.value| else 0) && offset <= Capacity()
    }

    ghost function Capacity(): nat
      reads this
    {
      if keys.Some? then |keys.value| else 0
    }

    /** What a caller can see: the rows below the offset. */
    ghost function Keys(): seq<Row>
      requires Valid()
      reads this
    {
      if keys.Some? then keys.value[..offset] else []
    }

    ghost function Values(): seq<Row>
      requires Valid()
      reads this
    {
      if values.Some? then values.value[..offset] else []
    }

    constructor WithStep(step: nat, zero: Row)
      requires step > 0
      ensures Valid() && Keys() == Values() == [] && offset == Capacity() == 0 && this.step == step
    {
      this.step, this.zero := step, zero;
      keys, values, offset := None, None, 0;
    }

    method Reset()
      requires Valid()
      modifies this`offset
      ensures Valid() && Keys() == Values() == [] && offset == 0
    {
      offset := 0;
    }

    /** Replaces an exhausted buffer by a longer one; the visible rows stay. */
    method Grow(numNew: nat)
      requires Valid() && (keys.None? || offset + numNew > Capacity())
      modifies this`keys, this`values
      ensures Valid() && keys.Some? && offset + numNew <= Capacity()
      ensures Keys() == old(Keys()) && Values() == old(Values())
      ensures Capacity() == NextCapacity(old(Capacity()), offset, numNew, step)
    {
      var nSteps := (step + numNew - 1) / step;
      var newSize := nSteps * step;
      GrownFits(numNew, step);
      GrownFormula(numNew, step);
      var newK := seq(newSize, _ => zero);
      var newV := seq(newSize, _ => zero);
      if keys.Some? && values.Some? {
        var oldK, oldV := keys.value, values.value;
        if offset % step != 0 {
          oldK, oldV := oldK[..offset], oldV[..offset];
        }
        keys, values := Some(oldK + newK), Some(oldV + newV);
      } else {
        keys, values := Some(newK), Some(newV);
      }
    }

    /** Returns exactly the rows seen since the last reset followed by the new ones. */
    method UpdateAndFetch(newKeys: seq<Row>, newValues: seq<Row>) returns (outKeys: seq<Row>, outValues: seq<Row>)
      requires Valid() && |newKeys| == |newValues|
      modifies this`keys, this`values, this`offset
      ensures Valid()
      ensures outKeys == Keys() == old(Keys()) + newKeys
      ensures outValues == Values() == old(Values()) + newValues
      ensures offset == old(offset) + |newKeys|
      ensures Capacity() == NextCapacity(old(Capacity()), old(offset), |newKeys|, step)
    {
      var prev := offset;
      var numNew := |newKeys|;
      if keys.None? || prev + numNew > |keys.value| {
        Grow(numNew);
      }
      offset := offset + numNew;
      var k, v := keys.value, values.value;
      keys := Some(k[..prev] + newKeys + k[offset..]);
      values := Some(v[..prev] + newValues + v[offset..]);
      return keys.value[..offset], values.value[..offset];
    }
  }

  /** The rounding the cache computes: (step + numNew - 1) / step steps. */
  lemma GrownFormula(n: nat, step: nat)
    requires step > 0
    ensures (step + n - 1) / step * step == Grown(n, step)
  {
    var x := step + n - 1;
    var k := x / step;
    assert x == k * step + x % step;
    GrownIs(n, k, step);
  }

  lemma {:induction false} GrownIs(n: nat, k: nat, step: nat)
    requires step > 0 && n <= k * step < n + step
    ensures Grown(n, step) == k * step
  {
    if n == 0 {
      if k > 0 {
        AtLeastOnce(k, step);
      }
    } else {
      assert (k - 1) * step == k * step - step;
      if n > step {
        GrownIs(n - step, k - 1, step);
      } else if k > 1 {
        AtLeastOnce(k - 1, step);
      }
    }
  }

  lemma {:induction false} GrownFits(n: nat, step: nat)
    requires step > 0
    ensures n <= Grown(n, step) <= n + step - 1
  {
    if n > step {
      GrownFits(n - step, step);
    }
  }

  lemma {:induction false} GrownMonotone(a: nat, b: nat, step: nat)
    requires step > 0 && a <= b
    ensures Grown(a, step) <= Grown(b, step)
  {
    if a > step {
      GrownMonotone(a - step, b - step, step);
    }
  }

  /** An aligned offset shifts the rounding along. */
  lemma {:induction false} GrownShift(offset: nat, n: nat, step: nat)
    requires step > 0 && offset % step == 0
    ensures Grown(offset + n, step) == offset + Grown(n, step)
  {
    if offset > 0 {
      var q := offset / step;
      assert offset == q * step;
      if q >= 1 {
        AtLeastOnce(q, step);
      }
      assert (q - 1) * step == q * step - step;
      ModIs(offset - step, q - 1, 0, step);
      GrownShift(offset - step, n, step);
    }
  }

  // ---- whole runs ----

  datatype Operation<Row> = Update(keys: seq<Row>, values: seq<Row>) | Reset

  predicate Matched<Row>(op: Operation<Row>) {
    op.Update? ==> |op.keys| == |op.values|
  }

  /** What one operation returns, and the rows it leaves, given the rows it finds. */
  function Returned<Row>(op: Operation<Row>, k: seq<Row>, v: seq<Row>): seq<(seq<Row>, seq<Row>)> {
    if op.Update? then [(k + op.keys, v + op.values)] else []
  }

  function RowsAfter<Row>(op: Operation<Row>, k: seq<Row>, v: seq<Row>): (seq<Row>, seq<Row>) {
    if op.Update? then (k + op.keys, v + op.values) else ([], [])
  }

  /** What a run returns, update by update, in terms of the operations alone. */
  function Transcript<Row>(ops: seq<Operation<Row>>, k: seq<Row>, v: seq<Row>): seq<(seq<Row>, seq<Row>)> {
    if ops == [] then []
    else
      var (k', v') := RowsAfter(ops[0], k, v);
      Returned(ops[0], k, v) + Transcript(ops[1..], k', v')
  }

  /** One operation on both caches; a reset starts a new concatenating cache. */
  method BothOne<Row(==)>(cache: KVCache<Row>, plain: ConcatKeyValueCache<Row>, op: Operation<Row>)
    returns (plain': ConcatKeyValueCache<Row>, a: seq<(seq<Row>, seq<Row>)>, b: seq<(seq<Row>, seq<Row>)>)
    requires cache.Valid() && plain.Holds(cache.Keys(), cache.Values()) && Matched(op)
    modifies cache, plain
    ensures cache.Valid() && plain'.Holds(cache.Keys(), cache.Values()) && (plain' == plain || fresh(plain'))
    ensures a == b == Returned(op, old(cache.Keys()), old(cache.Values()))
    ensures (cache.Keys(), cache.Values()) == RowsAfter(op, old(cache.Keys()), old(cache.Values()))
  {
    hide NextCapacity, Grown;
    plain', a, b := plain, [], [];
    match op
    case Update(k, v) =>
      ghost var keys, values := cache.Keys(), cache.Values();
      var outKeys, outValues := cache.UpdateAndFetch(k, v);
      a := [(outKeys, outValues)];
      outKeys, outValues := plain.UpdateAndFetch(k, v, keys, values);
      b := [(outKeys, outValues)];
    case Reset =>
      cache.Reset();
      plain' := new ConcatKeyValueCache<Row>();
  }

  lemma TranscriptNext<Row>(ops: seq<Operation<Row>>, i: nat, k: seq<Row>, v: seq<Row>)
    requires i < |ops|
    ensures var (k', v') := RowsAfter(ops[i], k, v);
      Transcript(ops[i..], k, v) == Returned(ops[i], k, v) + Transcript(ops[i + 1..], k', v')
  {
    hide Returned, RowsAfter;
    assert ops[i..][1..] == ops[i + 1..];
  }

  /** Drives both caches through one run, a new concatenating cache at every reset, and collects
      what each returns: the two transcripts are the same, whatever the run. */
  method RunBoth<Row(==)>(ops: seq<Operation<Row>>, step: nat, zero: Row)
    returns (stepped: seq<(seq<Row>, seq<Row>)>, concatenated: seq<(seq<Row>, seq<Row>)>)
    requires step > 0 && forall op :: op in ops ==> Matched(op)
    ensures stepped == concatenated
    ensures stepped == Transcript(ops, [], [])
  {
    var cache := new KVCache.WithStep(step, zero);
    var plain := new ConcatKeyValueCache<Row>();
    stepped, concatenated := [], [];
    assert ops[0..] == ops;
    assert Agree(cache, plain, ops, 0, []);
    hide *;
    for i := 0 to |ops|
      invariant fresh(cache) && fresh(plain)
      invariant stepped == concatenated && Agree(cache, plain, ops, i, stepped)
    {
      assert ops[i] in ops;
      plain, stepped, concatenated := AgreeNext(cache, plain, ops, i, stepped, concatenated);
    }
    AgreeAtEnd(cache, plain, ops, stepped);
  }

  /** The two caches hold the same rows, and what they returned so far is the transcript's beginning. */
  ghost predicate Agree<Row>(cache: KVCache<Row>, plain: ConcatKeyValueCache<Row>, ops: seq<Operation<Row>>, i: nat,
                             returned: seq<(seq<Row>, seq<Row>)>)
    reads cache, plain
  {
    && cache.Valid() && plain.Holds(cache.Keys(), cache.Values()) && i <= |ops|
    && Transcript(ops, [], []) == returned + Transcript(ops[i..], cache.Keys(), cache.Values())
  }

  method AgreeNext<Row(==)>(cache: KVCache<Row>, plain: ConcatKeyValueCache<Row>, ops: seq<Operation<Row>>, i: nat,
                            stepped: seq<(seq<Row>, seq<Row>)>, concatenated: seq<(seq<Row>, seq<Row>)>)
    returns (plain': ConcatKeyValueCache<Row>, a: seq<(seq<Row>, seq<Row>)>, b: seq<(seq<Row>, seq<Row>)>)
    requires i < |ops| && Matched(ops[i]) && stepped == concatenated && Agree(cache, plain, ops, i, stepped)
    modifies cache, plain
    ensures (plain' == plain || fresh(plain')) && a == b && Agree(cache, plain', ops, i + 1, a)
  {
    TranscriptNext(ops, i, cache.Keys(), cache.Values());
    hide Transcript, Returned, RowsAfter, Matched;
    plain', a, b := BothOne(cache, plain, ops[i]);
    a, b := stepped + a, concatenated + b;
  }

  lemma AgreeAtEnd<Row>(cache: KVCache<Row>, plain: ConcatKeyValueCache<Row>, ops: seq<Operation<Row>>,
                        returned: seq<(seq<Row>, seq<Row>)>)
    requires Agree(cache, plain, ops, |ops|, returned)
    ensures returned == Transcript(ops, [], [])
  {
    assert ops[|ops|..] == [];
  }

  lemma RunPrefix<Row>(ops: seq<Operation<Row>>, i: nat, step: nat)
    requires step > 0 && i < |ops|
    ensures Run(START, Events(ops[..i + 1]), step) == After(Run(START, Events(ops[..i]), step), EventOf(ops[i]), step)
  {
    assert Events(ops[..i + 1])[..i] == Events(ops[..i]);
  }

  /** The object's buffer length and offset, as counted by the growth rule. */
  ghost predicate Tracks<Row>(cache: KVCache<Row>, usage: Usage)
    reads cache
  {
    cache.Valid() && usage.capacity == cache.Capacity() && usage.offset == cache.offset
  }

  method RunOne<Row>(cache: KVCache<Row>, op: Operation<Row>, usage: Usage) returns (next: Usage)
    requires Tracks(cache, usage) && Matched(op)
    modifies cache
    ensures Tracks(cache, next) && next == After(usage, EventOf(op), cache.step)
  {
    hide NextCapacity, Grown;
    match op {
      case Update(k, v) =>
        var _, _ := cache.UpdateAndFetch(k, v);
      case Reset =>
        cache.Reset();
    }
    next := Usage(if cache.keys.Some? then |cache.keys.value| else 0, cache.offset,
                  if cache.offset > usage.highest then cache.offset else usage.highest);
  }

  /** Buffer length and offset of the real cache after a run are those of the event model below. */
  method RunCache<Row>(ops: seq<Operation<Row>>, step: nat, zero: Row) returns (usage: Usage)
    requires step > 0 && forall op :: op in ops ==> Matched(op)
    ensures usage == Run(START, Events(ops), step)
  {
    var cache := new KVCache.WithStep(step, zero);
    usage := START;
    assert Tracks(cache, usage) && ops[..0] == [];
    hide Tracks, After, Matched;
    for i := 0 to |ops|
      invariant fresh(cache) && cache.step == step && Tracks(cache, usage)
      invariant usage == Run(START, Events(ops[..i]), step)
    {
      assert ops[i] in ops;
      RunPrefix(ops, i, step);
      hide Run, Events;
      usage := RunOne(cache, ops[i], usage);
    }
    assert ops[..|ops|] == ops;
  }

  // ---- over-allocation ----

  datatype Event = Tokens(n: nat) | ResetEvent

  /** Buffer length, offset, and the highest offset reached so far. */
  datatype Usage = Usage(capacity: nat, offset: nat, highest: nat)

  const START := Usage(0, 0, 0)

  function After(u: Usage, e: Event, step: nat): Usage
    requires step > 0
  {
    match e
    case Tokens(n) =>
      var offset := u.offset + n;
      Usage(NextCapacity(u.capacity, u.offset, n, step), offset, if offset > u.highest then offset else u.highest)
    case ResetEvent => u.(offset := 0)
  }

  function Run(u: Usage, events: seq<Event>, step: nat): Usage
    requires step > 0
    decreases |events|
  {
    if events == [] then u
    else After(Run(u, events[..|events| - 1], step), events[|events| - 1], step)
  }

  function EventOf<Row>(op: Operation<Row>): Event {
    match op
    case Update(k, v) => Tokens(|k|)
    case Reset => ResetEvent
  }

  function Events<Row>(ops: seq<Operation<Row>>): seq<Event> {
    seq(|ops|, i requires 0 <= i < |ops| => EventOf(ops[i]))
  }

  /** The buffer ends less than one step beyond the step boundary at or above the offset, although an
      aligned buffer is not trimmed before it grows. */
  ghost predicate WithinOneStep(u: Usage, step: nat)
    requires step > 0
  {
    u.offset <= u.capacity <= Grown(u.offset, step) + step - 1
  }

  lemma UpdateStaysWithin(u: Usage, n: nat, step: nat)
    requires step > 0 && WithinOneStep(u, step)
    ensures WithinOneStep(After(u, Tokens(n), step), step)
  {
    hide Grown;
    GrownFits(n, step);
    GrownFits(u.offset + n, step);
    GrownMonotone(u.offset, u.offset + n, step);
    if u.offset % step == 0 {
      GrownShift(u.offset, n, step);
      GrownShift(u.offset, 0, step);
      GrownIs(0, 0, step);
    }
  }

  /** Without resets every reachable buffer over-allocates at most 2 * step - 2 rows. */
  lemma {:induction false} NoResetBound(events: seq<Event>, step: nat)
    requires step > 0 && forall e :: e in events ==> e.Tokens?
    ensures var u := Run(START, events, step);
      WithinOneStep(u, step) && u.offset <= u.capacity <= u.offset + 2 * step - 2
    decreases |events|
  {
    if events == [] {
      GrownIs(0, 0, step);
    } else {
      var prefix, last := events[..|events| - 1], events[|events| - 1];
      NoResetBound(prefix, step);
      assert last in events;
      UpdateStaysWithin(Run(START, prefix, step), last.n, step);
      GrownFits(Run(START, events, step).offset, step);
    }
  }

  lemma RunNext(events: seq<Event>, e: Event, u: Usage, step: nat)
    requires step > 0 && Run(START, events, step) == u
    ensures Run(START, events + [e], step) == After(u, e, step)
  {
    assert (events + [e])[..|events|] == events;
  }

  /** ... and for every step size some run reaches that bound. */
  lemma NoResetBoundTight(step: nat) returns (events: seq<Event>)
    requires step > 0
    ensures forall e :: e in events ==> e.Tokens?
    ensures var u := Run(START, events, step); u.capacity == u.offset + 2 * step - 2
  {
    events := [Tokens(step - 1)];
    FirstUpdate(step);
    SecondUpdate(events, step);
    events := events + [Tokens(step + 1)];
    ThirdUpdate(events, step);
    events := events + [Tokens(step + 1)];
  }

  lemma FirstUpdate(step: nat)
    requires step > 0
    ensures Run(START, [Tokens(step - 1)], step) == Usage(if step == 1 then 0 else step, step - 1, step - 1)
  {
    RunNext([], Tokens(step - 1), START, step);
    assert [] + [Tokens(step - 1)] == [Tokens(step - 1)];
    ModIs(0, 0, 0, step);
  }

  lemma SecondUpdate(events: seq<Event>, step: nat)
    requires step > 0 && Run(START, events, step) == Usage(if step == 1 then 0 else step, step - 1, step - 1)
    ensures Run(START, events + [Tokens(step + 1)], step) == Usage(3 * step - 1, 2 * step, 2 * step)
  {
    RunNext(events, Tokens(step + 1), Usage(if step == 1 then 0 else step, step - 1, step - 1), step);
    GrownIs(step + 1, 2, step);
    ModIs(step - 1, 0, step - 1, step);
  }

  lemma ThirdUpdate(events: seq<Event>, step: nat)
    requires step > 0 && Run(START, events, step) == Usage(3 * step - 1, 2 * step, 2 * step)
    ensures Run(START, events + [Tokens(step + 1)], step) == Usage(5 * step - 1, 3 * step + 1, 3 * step + 1)
  {
    RunNext(events, Tokens(step + 1), Usage(3 * step - 1, 2 * step, 2 * step), step);
    GrownIs(step + 1, 2, step);
    ModIs(2 * step, 2, 0, step);
  }

  /** With resets the buffer stays below twice the highest offset ever reached, plus a step. */
  lemma {:induction false} ResetBound(events: seq<Event>, step: nat)
    requires step > 0
    ensures var u := Run(START, events, step);
      && u.offset <= u.capacity && u.offset <= u.highest
      && (if u.highest == 0 then u.capacity == 0 else u.capacity <= 2 * u.highest + step - 2)
    decreases |events|
  {
    if events != [] {
      var prefix, last := events[..|events| - 1], events[|events| - 1];
      ResetBound(prefix, step);
      if last.Tokens? {
        GrownFits(last.n, step);
      }
    }
  }

  /** ... and that bound is reached as well: a full step, a reset, one token more than a step. */
  lemma ResetBoundTight(step: nat) returns (events: seq<Event>)
    requires step > 0
    ensures var u := Run(START, events, step); u.highest > 0 && u.capacity == 2 * u.highest + step - 2
  {
    FullStep(step);
    events := [Tokens(step)] + [ResetEvent];
    RunNext([Tokens(step)], ResetEvent, Usage(step, step, step), step);
    OneMoreThanAStep(events, step);
    events := events + [Tokens(step + 1)];
  }

  lemma FullStep(step: nat)
    requires step > 0
    ensures Run(START, [Tokens(step)], step) == Usage(step, step, step)
  {
    RunNext([], Tokens(step), START, step);
    assert [] + [Tokens(step)] == [Tokens(step)];
    ModIs(0, 0, 0, step);
  }

  lemma OneMoreThanAStep(events: seq<Event>, step: nat)
    requires step > 0 && Run(START, events, step) == Usage(step, 0, step)
    ensures Run(START, events + [Tokens(step + 1)], step) == Usage(3 * step, step + 1, step + 1)
  {
    RunNext(events, Tokens(step + 1), Usage(step, 0, step), step);
    GrownIs(step + 1, 2, step);
    ModIs(0, 0, 0, step);
  }
}
