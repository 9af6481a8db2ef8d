/** Incremental parsing of an ordered byte stream: a loop that takes messages off the front of the unread bytes until
    it has to wait for more or gives up. */
module StreamParser {
  import opened Bytes

  /** One iteration: wait for more bytes; stop in a final state; or consume `size` bytes. */
  datatype Outcome<S, E> = Wait | Stop(final: S) | Advance(size: nat, state: S, effects: seq<E>)

  type Iteration<!S, !E> = (S, Block) -> Outcome<S, E>

  datatype Parsed<S, E> = Parsed(state: S, effects: seq<E>, rest: Block)

  ghost predicate Progresses<S(!new), E(!new)>(step: Iteration<S, E>) {
    forall s, x :: x != [] && step(s, x).Advance? ==> 0 < step(s, x).size <= |x|
  }

  /** More bytes behind never change a decision, and a parser that has stopped would stop again. */
  ghost predicate Stable<S(!new), E(!new)>(step: Iteration<S, E>) {
    && (forall s, x, y :: x != [] && !step(s, x).Wait? ==> step(s, x + y) == step(s, x))
    && (forall s, x :: x != [] && step(s, x).Stop? ==> step(step(s, x).final, x) == step(s, x))
  }

  /** The result of parsing, with earlier effects put in front. */
  function After<S, E>(effects: seq<E>, p: Parsed<S, E>): (r: Parsed<S, E>)
  {
    Parsed(p.state, effects + p.effects, p.rest)
  }

  function Parse<S(!new), E(!new)>(step: Iteration<S, E>, s: S, input: Block): (p: Parsed<S, E>)
    requires Progresses(step)
    decreases |input|
  {
    if input == [] then Parsed(s, [], [])
    else
      match step(s, input)
      case Wait => Parsed(s, [], input)
      case Stop(s') => Parsed(s', [], input)
      case Advance(n, s', effects) =>
        assert step(s, input).Advance? && step(s, input).size == n;
        After(effects, Parse(step, s', input[n..]))
  }

  /** Parsing x and then, behind what x left unread, y. */
  function ParseTwice<S(!new), E(!new)>(step: Iteration<S, E>, s: S, x: Block, y: Block): (p: Parsed<S, E>)
    requires Progresses(step)
  {
    var p := Parse(step, s, x);
    After(p.effects, Parse(step, p.state, p.rest + y))
  }

  lemma Decided<S(!new), E(!new)>(step: Iteration<S, E>, s: S, x: Block, y: Block)
    requires Stable(step) && x != [] && !step(s, x).Wait?
    ensures step(s, x + y) == step(s, x)
  {}

  lemma StopsAgain<S(!new), E(!new)>(step: Iteration<S, E>, s: S, x: Block, y: Block)
    requires Stable(step) && x != [] && step(s, x).Stop?
    ensures step(step(s, x).final, x + y) == step(s, x) == step(s, x + y)
  {
    Decided(step, s, x, y);
    assert step(step(s, x).final, x) == step(s, x);
    Decided(step, step(s, x).final, x, y);
  }

  lemma SplitStop<S(!new), E(!new)>(step: Iteration<S, E>, s: S, x: Block, y: Block)
    requires Progresses(step) && Stable(step) && x != [] && step(s, x).Stop?
    ensures Parse(step, s, x + y) == ParseTwice(step, s, x, y)
  {
    StopsAgain(step, s, x, y);
  }

  lemma ParseAdvance<S(!new), E(!new)>(step: Iteration<S, E>, s: S, x: Block)
    requires Progresses(step) && x != [] && step(s, x).Advance?
    ensures var a := step(s, x);
            0 < a.size <= |x| && Parse(step, s, x) == After(a.effects, Parse(step, a.state, x[a.size..]))
  {}

  lemma AfterAfter<S, E>(a: seq<E>, b: seq<E>, p: Parsed<S, E>)
    ensures After(a, After(b, p)) == After(a + b, p)
  {
    assert a + (b + p.effects) == (a + b) + p.effects;
  }

  lemma TwiceAdvance<S(!new), E(!new)>(step: Iteration<S, E>, s: S, x: Block, y: Block)
    requires Progresses(step) && x != [] && step(s, x).Advance?
    ensures var a := step(s, x);
            0 < a.size <= |x| &&
            ParseTwice(step, s, x, y) == After(a.effects, ParseTwice(step, a.state, x[a.size..], y))
  {
    ParseAdvance(step, s, x);
    var a := step(s, x);
    var p := Parse(step, a.state, x[a.size..]);
    AfterAfter(a.effects, p.effects, Parse(step, p.state, p.rest + y));
  }

  lemma CutSum(x: Block, y: Block, n: nat)
    requires n <= |x|
    ensures (x + y)[n..] == x[n..] + y
  {}

  lemma SplitAdvance<S(!new), E(!new)>(step: Iteration<S, E>, s: S, x: Block, y: Block)
    requires Progresses(step) && x != [] && step(s, x).Advance? && step(s, x + y) == step(s, x)
    requires var a := step(s, x); Parse(step, a.state, x[a.size..] + y) == ParseTwice(step, a.state, x[a.size..], y)
    ensures Parse(step, s, x + y) == ParseTwice(step, s, x, y)
  {
    ParseAdvance(step, s, x + y);
    TwiceAdvance(step, s, x, y);
    CutSum(x, y, step(s, x).size);
  }

  /** Receiving x and then y is receiving x + y. */
  lemma {:induction false} Split<S(!new), E(!new)>(step: Iteration<S, E>, s: S, x: Block, y: Block)
    requires Progresses(step) && Stable(step)
    ensures Parse(step, s, x + y) == ParseTwice(step, s, x, y)
    decreases |x|
  {
    if x == [] {
      assert x + y == y && [] + y == y;
    } else if step(s, x).Stop? {
      SplitStop(step, s, x, y);
    } else if step(s, x).Advance? {
      var a := step(s, x);
      Split(step, a.state, x[a.size..], y);
      Decided(step, s, x, y);
      SplitAdvance(step, s, x, y);
    }
  }

  function Concat(chunks: seq<Block>): (r: Block)
  {
    if chunks == [] then [] else Concat(chunks[..|chunks| - 1]) + chunks[|chunks| - 1]
  }

  /** One receive call per chunk; each parses what is unread followed by the new bytes. */
  function ReceiveAll<S(!new), E(!new)>(step: Iteration<S, E>, s: S, chunks: seq<Block>): (p: Parsed<S, E>)
    requires Progresses(step)
  {
    if chunks == [] then Parsed(s, [], [])
    else
      var n := |chunks| - 1;
      var p := ReceiveAll(step, s, chunks[..n]);
      After(p.effects, Parse(step, p.state, p.rest + chunks[n]))
  }

  /** Chunk independence of every such parser. */
  lemma {:induction false} ChunkIndependence<S(!new), E(!new)>(step: Iteration<S, E>, s: S, chunks: seq<Block>)
    requires Progresses(step) && Stable(step)
    ensures ReceiveAll(step, s, chunks) == Parse(step, s, Concat(chunks))
  {
    if chunks != [] {
      var n := |chunks| - 1;
      ChunkIndependence(step, s, chunks[..n]);
      Split(step, s, Concat(chunks[..n]), chunks[n]);
    }
  }

  /** One turn of the loop: what it produces goes in front of what parsing the remainder produces. */
  lemma Advances<S(!new), E(!new)>(step: Iteration<S, E>, s: S, input: Block, effects: seq<E>)
    requires Progresses(step) && input != [] && step(s, input).Advance?
    ensures var a := step(s, input);
            && 0 < a.size <= |input|
            && After(effects, Parse(step, s, input))
               == After(effects + a.effects, Parse(step, a.state, input[a.size..]))
  {
    var a := step(s, input);
    ParseAdvance(step, s, input);
    AfterAfter(effects, a.effects, Parse(step, a.state, input[a.size..]));
  }

  /** A stream endpoint: the state and the bytes not yet consumed. Each receive call runs the loop. */
  class Stream<S(!new), E(!new)> {
    var state: S
    var unread: Block

    constructor (s: S)
      ensures state == s && unread == []
    {
      state := s;
      unread := [];
    }

    method Receive(step: Iteration<S, E>, chunk: Block) returns (effects: seq<E>)
      requires Progresses(step)
      modifies this
      ensures Parsed(state, effects, unread) == Parse(step, old(state), old(unread) + chunk)
    {
      unread := unread + chunk;
      effects := [];
      ghost var start, all := state, unread;
      while unread != []
        invariant Parse(step, start, all) == After(effects, Parse(step, state, unread))
        decreases |unread|
      {
        match step(state, unread) {
          case Wait =>
            return;
          case Stop(final) =>
            state := final;
            return;
          case Advance(n, next, more) =>
            Advances(step, state, unread, effects);
            state, unread, effects := next, unread[n..], effects + more;
        }
      }
    }
  }
}
