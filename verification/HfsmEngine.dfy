/** HFSMParser.hpp, generic in the super states it is instantiated with, and the driver that calls
    `parse` again after each complete request. The main result is that a run does not depend on how
    its bytes are cut into `parse` calls. */
module HfsmEngine {
  import opened Sequences

  /** The outcome of consuming `used` bytes in parser state `m`. */
  datatype Outcome<M, E> = Outcome(m: M, events: seq<E>, used: nat, complete: bool, err: bool)

  /** What the engine is instantiated with: one iteration of the outer loop of `parse`, the reset of the
      request between requests, the states the parser can be in, and how an event that carries a block
      of skipped bytes is cut into events that carry one byte each. */
  datatype Rules<!M, !E> = Rules(
    round: (M, string) -> Outcome<M, E>,
    reset: M -> M,
    inv: M -> bool,
    cut: E -> seq<E>)

  datatype Run<M, E> = Run(m: M, events: seq<E>, stopped: bool)

  // ----- the one-byte-at-a-time reference

  function ByteRun<M, E>(p: Rules<M, E>, m: M, input: string): Run<M, E>
    decreases |input|
  {
    if input == [] then Run(m, [], false)
    else
      var o := p.round(m, [input[0]]);
      if o.err then Run(o.m, o.events, true)
      else
        var rest := ByteRun(p, if o.complete then p.reset(o.m) else o.m, input[1..]);
        rest.(events := o.events + rest.events)
  }

  function Explode<M, E>(p: Rules<M, E>, events: seq<E>): seq<E> {
    if events == [] then [] else p.cut(events[0]) + Explode(p, events[1..])
  }

  /** Two runs that differ at most in how blocks of skipped bytes are cut. */
  predicate Same<M(==), E(==)>(p: Rules<M, E>, a: Run<M, E>, b: Run<M, E>) {
    a.m == b.m && a.stopped == b.stopped && Explode(p, a.events) == Explode(p, b.events)
  }

  function AsRun<M, E>(p: Rules<M, E>, o: Outcome<M, E>): Run<M, E> {
    Run(if o.complete && !o.err then p.reset(o.m) else o.m, o.events, o.err)
  }

  /** The obligations on the super states: a round makes progress, stays in bounds, keeps the state
      possible, and does in one go what it would do byte by byte. */
  ghost predicate LawfulAt<M, E>(p: Rules<M, E>, m: M, input: string) {
    var o := p.round(m, input);
    && 1 <= o.used <= |input|
    && p.inv(o.m)
    && p.inv(p.reset(o.m))
    && Same(p, ByteRun(p, m, input[..o.used]), AsRun(p, o))
  }

  ghost predicate Lawful<M(!new), E>(p: Rules<M, E>) {
    forall m: M, input: string :: p.inv(m) && input != [] ==> LawfulAt(p, m, input)
  }

  // ----- parse and its driver

  /** `HFSMParser::parse`: rounds until the input ends, a request is complete, or an error is set. */
  function Parse<M(!new), E>(p: Rules<M, E>, m: M, input: string): (o: Outcome<M, E>)
    requires Lawful(p) && p.inv(m)
    ensures o.used <= |input| && p.inv(o.m)
    ensures input != [] ==> o.used > 0
    ensures !o.complete && !o.err ==> o.used == |input|
    decreases |input|
  {
    if input == [] then Outcome(m, [], 0, false, false)
    else
      assert LawfulAt(p, m, input);
      var r := p.round(m, input);
      if r.complete || r.err then r
      else
        var rest := Parse(p, r.m, input[r.used..]);
        rest.(events := r.events + rest.events, used := r.used + rest.used)
  }

  /** A call of `parse` on `input` has got as far as `o`. */
  ghost predicate Parsing<M(!new), E>(p: Rules<M, E>, m0: M, input: string, o: Outcome<M, E>)
    requires Lawful(p) && p.inv(m0)
  {
    && o.used <= |input| && p.inv(o.m)
    && Parse(p, m0, input) ==
       if o.complete || o.err then o
       else
         var rest := Parse(p, o.m, input[o.used..]);
         rest.(events := o.events + rest.events, used := o.used + rest.used)
  }

  lemma ParsingStep<M(!new), E>(p: Rules<M, E>, m0: M, input: string, o: Outcome<M, E>)
    requires Lawful(p) && p.inv(m0)
    requires Parsing(p, m0, input, o) && o.used < |input| && !o.complete && !o.err
    ensures var r := p.round(o.m, input[o.used..]);
      Parsing(p, m0, input, r.(events := o.events + r.events, used := o.used + r.used))
  {
    hide Same, ByteRun;
    var rest := input[o.used..];
    assert LawfulAt(p, o.m, rest);
    var r := p.round(o.m, rest);
    assert rest[r.used..] == input[o.used + r.used..];
    var tail := Parse(p, r.m, rest[r.used..]);
    assert o.events + (r.events + tail.events) == (o.events + r.events) + tail.events;
  }

  /** Parses one piece of input, calling `parse` again after every complete request and stopping for
      good once `parse` reports an error. */
  function Drive<M(!new), E>(p: Rules<M, E>, m: M, input: string): (r: Run<M, E>)
    requires Lawful(p) && p.inv(m)
    ensures p.inv(r.m)
    decreases |input|
  {
    if input == [] then Run(m, [], false)
    else
      ParseIsByteRun(p, m, input);
      var o := Parse(p, m, input);
      if o.err then Run(o.m, o.events, true)
      else if o.complete then
        var rest := Drive(p, p.reset(o.m), input[o.used..]);
        rest.(events := o.events + rest.events)
      else Run(o.m, o.events, false)
  }

  /** Successive pieces, as they arrive from the network. */
  function Feed<M(!new), E>(p: Rules<M, E>, m: M, pieces: seq<string>): Run<M, E>
    requires Lawful(p) && p.inv(m)
    decreases |pieces|
  {
    if pieces == [] then Run(m, [], false)
    else
      var r := Drive(p, m, pieces[0]);
      if r.stopped then r
      else
        var rest := Feed(p, r.m, pieces[1..]);
        rest.(events := r.events + rest.events)
  }

  // ----- proofs

  lemma {:induction false} ExplodeConcat<M, E>(p: Rules<M, E>, a: seq<E>, b: seq<E>)
    ensures Explode(p, a + b) == Explode(p, a) + Explode(p, b)
  {
    if a == [] {
      assert a + b == b;
    } else {
      assert (a + b)[1..] == a[1..] + b;
      ExplodeConcat(p, a[1..], b);
    }
  }

  function Then<M, E>(a: Run<M, E>, b: Run<M, E>): Run<M, E> {
    if a.stopped then a else b.(events := a.events + b.events)
  }

  lemma {:induction false} ByteRunConcat<M, E>(p: Rules<M, E>, m: M, a: string, b: string)
    ensures var ra := ByteRun(p, m, a);
      ByteRun(p, m, a + b) == Then(ra, ByteRun(p, ra.m, b))
    decreases |a|
  {
    if a == [] {
      assert a + b == b;
    } else {
      var o := p.round(m, [a[0]]);
      assert (a + b)[1..] == a[1..] + b;
      if !o.err {
        var m' := if o.complete then p.reset(o.m) else o.m;
        ByteRunConcat(p, m', a[1..], b);
        var ra := ByteRun(p, m', a[1..]);
        var rb := ByteRun(p, ra.m, b);
        assert o.events + (ra.events + rb.events) == (o.events + ra.events) + rb.events;
      }
    }
  }

  /** Peels the first byte off a run. */
  lemma ByteRunCons<M, E>(p: Rules<M, E>, m: M, input: string)
    requires input != [] && var o := p.round(m, [input[0]]); !o.complete && !o.err
    ensures var o := p.round(m, [input[0]]);
      ByteRun(p, m, input) == Then(Run(o.m, o.events, false), ByteRun(p, o.m, input[1..]))
  {}

  lemma SameThen<M, E>(p: Rules<M, E>, a: Run<M, E>, b: Run<M, E>, a': Run<M, E>, b': Run<M, E>)
    requires Same(p, a, a') && (!a.stopped ==> Same(p, b, b'))
    ensures Same(p, Then(a, b), Then(a', b'))
  {
    ExplodeConcat(p, a.events, b.events);
    ExplodeConcat(p, a'.events, b'.events);
  }

  lemma {:induction false} ParseIsByteRun<M(!new), E>(p: Rules<M, E>, m: M, input: string)
    requires Lawful(p) && p.inv(m)
    ensures var o := Parse(p, m, input);
      Same(p, ByteRun(p, m, input[..o.used]), AsRun(p, o)) && (o.complete ==> p.inv(p.reset(o.m)))
    decreases |input|
  {
    if input != [] {
      assert LawfulAt(p, m, input);
      var r := p.round(m, input);
      if !r.complete && !r.err {
        hide Same, ByteRun;
        var tail := input[r.used..];
        ParseIsByteRun(p, r.m, tail);
        var rest := Parse(p, r.m, tail);
        var a, b := input[..r.used], tail[..rest.used];
        assert input[..r.used + rest.used] == a + b;
        ByteRunConcat(p, m, a, b);
        SameThen(p, ByteRun(p, m, a), ByteRun(p, r.m, b), AsRun(p, r), AsRun(p, rest));
      }
    }
  }

  lemma {:induction false} DriveIsByteRun<M(!new), E>(p: Rules<M, E>, m: M, input: string)
    requires Lawful(p) && p.inv(m)
    ensures Same(p, ByteRun(p, m, input), Drive(p, m, input))
    decreases |input|
  {
    if input != [] {
      ParseIsByteRun(p, m, input);
      var o := Parse(p, m, input);
      var a, b := input[..o.used], input[o.used..];
      assert input == a + b;
      ByteRunConcat(p, m, a, b);
      var ra := ByteRun(p, m, a);
      if !o.err && o.complete {
        DriveIsByteRun(p, ra.m, b);
        SameThen(p, ra, ByteRun(p, ra.m, b), AsRun(p, o), Drive(p, ra.m, b));
      } else if !o.err {
        assert a == input;
      }
    }
  }

  lemma {:induction false} FeedIsByteRun<M(!new), E>(p: Rules<M, E>, m: M, pieces: seq<string>)
    requires Lawful(p) && p.inv(m)
    ensures Same(p, ByteRun(p, m, Concat(pieces)), Feed(p, m, pieces))
    decreases |pieces|
  {
    if pieces != [] {
      var a, b := pieces[0], Concat(pieces[1..]);
      DriveIsByteRun(p, m, a);
      ByteRunConcat(p, m, a, b);
      var r := Drive(p, m, a);
      if !r.stopped {
        FeedIsByteRun(p, r.m, pieces[1..]);
        SameThen(p, ByteRun(p, m, a), ByteRun(p, r.m, b), r, Feed(p, r.m, pieces[1..]));
      }
    }
  }

  /** However the same bytes are cut into pieces, the final state, whether an error stopped the run, and
      the events are the same, up to how blocks of skipped bytes are cut. */
  lemma ChunkingIndependence<M(!new), E>(p: Rules<M, E>, m: M, pieces: seq<string>, pieces': seq<string>)
    requires Lawful(p) && p.inv(m)
    requires Concat(pieces) == Concat(pieces')
    ensures Same(p, Feed(p, m, pieces), Feed(p, m, pieces'))
  {
    FeedIsByteRun(p, m, pieces);
    FeedIsByteRun(p, m, pieces');
  }
}
