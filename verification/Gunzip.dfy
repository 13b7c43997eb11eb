/**
  The chunk-fed decoder that turns a download into its decompressed bytes.  The inflater is an arbitrary
  deterministic byte machine, given as a value, that may reject a byte and says when a gzip member has
  ended; members follow one another as section 2.2 of RFC 1952 allows.
*/
module Gunzip {

  type byte = x: int | 0 <= x < 256

  const GZIP_MAGIC: seq<byte> := [0x1f, 0x8b]

  /** What the machine does with one byte of a member. */
  datatype Step<S> = More(state: S, out: seq<byte>) | Done(out: seq<byte>) | Bad

  datatype Inflater<!S> = Inflater(start: S, step: (S, byte) -> Step<S>)

  /** How a stretch of input went: how much was consumed, what came out, and where it left the machine. */
  datatype Fed<S> =
    | Open(state: S, out: seq<byte>)
    | Ended(used: nat, out: seq<byte>)
    | Rejected(out: seq<byte>)

  /** Feed bytes to a member that is open in state s. */
  function Feed<S>(z: Inflater<S>, s: S, input: seq<byte>): (r: Fed<S>)
    ensures r.Ended? ==> 1 <= r.used <= |input|
  {
    if input == [] then Open(s, [])
    else
      match z.step(s, input[0])
      case Bad => Rejected([])
      case Done(out) => Ended(1, out)
      case More(s', out) =>
        match Feed(z, s', input[1..])
        case Open(s'', out') => Open(s'', out + out')
        case Ended(used, out') => Ended(used + 1, out + out')
        case Rejected(out') => Rejected(out + out')
  }

  /** What was fed before, put in front. */
  function Prepend<S>(n: nat, out: seq<byte>, rest: Fed<S>): Fed<S> {
    match rest
    case Open(s, o) => Open(s, out + o)
    case Ended(used, o) => Ended(n + used, out + o)
    case Rejected(o) => Rejected(out + o)
  }

  /** Feeding one byte that does not end the member, and then the rest. */
  lemma FeedMore<S>(z: Inflater<S>, s: S, rest: seq<byte>, n: nat, out: seq<byte>, s': S, o: seq<byte>)
    requires rest != [] && z.step(s, rest[0]) == More(s', o)
    ensures Prepend(n, out, Feed(z, s, rest)) == Prepend(n + 1, out + o, Feed(z, s', rest[1..]))
  {
    assert forall x: seq<byte> :: out + (o + x) == out + o + x;
  }

  lemma FeedLast<S>(z: Inflater<S>, s: S, rest: seq<byte>, n: nat, out: seq<byte>)
    requires rest != [] && !z.step(s, rest[0]).More?
    ensures Prepend(n, out, Feed(z, s, rest))
         == if z.step(s, rest[0]).Bad? then Rejected(out) else Ended(n + 1, out + z.step(s, rest[0]).out)
  {
    assert out + [] == out;
  }

  lemma FeedNone<S>(z: Inflater<S>, s: S, n: nat, out: seq<byte>)
    ensures Prepend(n, out, Feed(z, s, [])) == Open(s, out)
  {
    assert out + [] == out;
  }

  /** `zlib.decompressobj`: fed after its end it yields nothing and keeps the input as unused. */
  class Decompressor<!S> {
    const z: Inflater<S>
    var state: S
    var eof: bool
    var unused: seq<byte>

    constructor (z: Inflater<S>)
      ensures this.z == z && state == z.start && !eof && unused == []
    {
      this.z := z;
      state := z.start;
      eof := false;
      unused := [];
    }

    /** Returns the output of this input, or reports corrupt data and returns none. */
    method Decompress(input: seq<byte>) returns (ok: bool, out: seq<byte>)
      modifies this
      ensures old(eof) ==> ok && out == [] && eof && unused == old(unused) + input && state == old(state)
      ensures !old(eof) ==>
        match Feed(z, old(state), input)
        case Open(s, o) => ok && out == o && !eof && state == s && unused == old(unused)
        case Ended(used, o) => ok && out == o && eof && unused == old(unused) + input[used..]
        case Rejected(_) => !ok && out == []
    {
      ok, out := true, [];
      if eof {
        unused := unused + input;
        return;
      }
      ghost var s0 := state;
      var i := 0;
      assert input[0..] == input;
      while i < |input|
        invariant 0 <= i <= |input| && ok && !eof && unused == old(unused)
        invariant Feed(z, s0, input) == Prepend(i, out, Feed(z, state, input[i..]))
      {
        assert input[i..][1..] == input[i + 1..];
        match z.step(state, input[i]) {
          case Bad =>
            FeedLast(z, state, input[i..], i, out);
            ok, out := false, [];
            return;
          case Done(o) =>
            FeedLast(z, state, input[i..], i, out);
            out := out + o;
            eof := true;
            unused := unused + input[i + 1..];
            return;
          case More(s', o) =>
            FeedMore(z, state, input[i..], i, out, s', o);
            state := s';
            out := out + o;
            i := i + 1;
        }
      }
      FeedNone(z, state, i, out);
    }
  }

  // ---------------------------------------------------------------- reference: decoding a whole stream

  datatype Verdict = Whole | Truncated | Corrupt

  datatype Decoded = Decoded(out: seq<byte>, verdict: Verdict)

  function After(out: seq<byte>, d: Decoded): Decoded {
    Decoded(out + d.out, d.verdict)
  }

  /** The stream as one member after another, starting with a fresh one. */
  function DecodeMembers<S>(z: Inflater<S>, input: seq<byte>): Decoded
    decreases |input|
  {
    match Feed(z, z.start, input)
    case Open(_, out) => Decoded(out, Truncated)
    case Rejected(out) => Decoded(out, Corrupt)
    case Ended(used, out) =>
      if used == |input| then Decoded(out, Whole) else After(out, DecodeMembers(z, input[used..]))
  }

  ghost function Flatten(chunks: seq<seq<byte>>): seq<byte> {
    if chunks == [] then [] else chunks[0] + Flatten(chunks[1..])
  }

  /** The machine takes the bytes one by one, from the first of these states through the others. */
  ghost predicate Steps<S>(z: Inflater<S>, input: seq<byte>, states: seq<S>) {
    && 1 <= |states| <= |input| + 1
    && forall i :: 0 <= i < |states| - 1 ==>
         z.step(states[i], input[i]).More? && z.step(states[i], input[i]).state == states[i + 1]
  }

  ghost function Outputs<S>(z: Inflater<S>, input: seq<byte>, states: seq<S>): seq<seq<byte>>
    requires Steps(z, input, states)
  {
    seq(|states| - 1, i requires 0 <= i < |states| - 1 => z.step(states[i], input[i]).out)
  }

  lemma MoreSteps<S>(z: Inflater<S>, s: S, input: seq<byte>, rest: seq<S>, states: seq<S>)
    requires input != [] && Steps(z, input[1..], rest) && z.step(s, input[0]).More? && states == [s] + rest
    requires z.step(s, input[0]).state == rest[0]
    ensures Steps(z, input, states) && Outputs(z, input, states) == [z.step(s, input[0]).out] +
                                                                    Outputs(z, input[1..], rest)
  {
    forall i | 0 < i < |states| - 1
      ensures z.step(states[i], input[i]) == z.step(rest[i - 1], input[1..][i - 1])
    {
    }
  }

  /**
    Feeding is running the machine byte by byte: up to the end of the input, to the byte that ends the member or to
    the one it rejects, putting out what the single steps put out.
  */
  lemma {:induction false} FeedIsSteps<S>(z: Inflater<S>, s: S, input: seq<byte>) returns (states: seq<S>)
    ensures Steps(z, input, states) && states[0] == s
    ensures var n, all := |states| - 1, Flatten(Outputs(z, input, states));
            match Feed(z, s, input)
            case Open(s', out) => n == |input| && s' == states[n] && out == all
            case Ended(used, out) =>
              n + 1 == used <= |input| && z.step(states[n], input[n]).Done? &&
              out == all + z.step(states[n], input[n]).out
            case Rejected(out) => n < |input| && z.step(states[n], input[n]).Bad? && out == all
  {
    states := [s];
    if input != [] {
      var step := z.step(s, input[0]);
      if step.More? {
        var rest := FeedIsSteps(z, step.state, input[1..]);
        states := [s] + rest;
        MoreSteps(z, s, input, rest, states);
        assert Outputs(z, input, states)[1..] == Outputs(z, input[1..], rest);
        var n := |rest| - 1;
        assert n < |input| - 1 ==> input[1..][n] == input[n + 1];
      }
    }
  }

  /** A complete member and its content. */
  ghost predicate IsMember<S>(z: Inflater<S>, m: seq<byte>, content: seq<byte>) {
    Feed(z, z.start, m) == Ended(|m|, content)
  }

  ghost predicate AreMembers<S>(z: Inflater<S>, ms: seq<seq<byte>>, contents: seq<seq<byte>>) {
    |ms| == |contents| && forall i :: 0 <= i < |ms| ==> IsMember(z, ms[i], contents[i])
  }

  /** An ended or rejected member does not see what follows; an open one goes on from where it was. */
  lemma {:induction false} FeedAppend<S>(z: Inflater<S>, s: S, a: seq<byte>, b: seq<byte>)
    ensures var r := Feed(z, s, a);
            Feed(z, s, a + b) == if r.Open? then Prepend(|a|, r.out, Feed(z, r.state, b)) else r
  {
    if a == [] {
      assert a + b == b;
      var r := Feed(z, s, b);
      assert r == Prepend(0, [], r) by {
        assert [] + r.out == r.out;
      }
    } else {
      assert (a + b)[0] == a[0] && (a + b)[1..] == a[1..] + b;
      match z.step(s, a[0]) {
        case Bad =>
        case Done(_) =>
        case More(s', out) =>
          FeedAppend(z, s', a[1..], b);
          var r := Feed(z, s', a[1..]);
          if r.Open? {
            var t := Feed(z, r.state, b);
            assert out + (r.out + t.out) == (out + r.out) + t.out;
          }
      }
    }
  }

  /** Members in front decode to their contents in front. */
  lemma {:induction false} MembersFirst<S>(z: Inflater<S>, ms: seq<seq<byte>>, contents: seq<seq<byte>>,
                                           tail: seq<byte>)
    requires AreMembers(z, ms, contents) && tail != []
    ensures DecodeMembers(z, Flatten(ms) + tail) == After(Flatten(contents), DecodeMembers(z, tail))
  {
    if ms == [] {
      assert Flatten(ms) + tail == tail;
      assert [] + DecodeMembers(z, tail).out == DecodeMembers(z, tail).out;
    } else {
      var m, rest := ms[0], Flatten(ms[1..]) + tail;
      assert Flatten(ms) + tail == m + rest;
      assert IsMember(z, m, contents[0]);
      FeedAppend(z, z.start, m, rest);
      assert (m + rest)[|m|..] == rest;
      MembersFirst(z, ms[1..], contents[1..], tail);
      var d := DecodeMembers(z, tail);
      assert contents[0] + (Flatten(contents[1..]) + d.out) == (contents[0] + Flatten(contents[1..])) + d.out;
    }
  }

  lemma {:induction false} FlattenAppend(a: seq<seq<byte>>, b: seq<seq<byte>>)
    ensures Flatten(a + b) == Flatten(a) + Flatten(b)
  {
    if a == [] {
      assert a + b == b;
    } else {
      assert (a + b)[1..] == a[1..] + b;
      FlattenAppend(a[1..], b);
    }
  }

  lemma FlattenOne(a: seq<seq<byte>>, x: seq<byte>)
    ensures Flatten(a + [x]) == Flatten(a) + x
  {
    FlattenAppend(a, [x]);
    assert Flatten([x]) == x + Flatten([]);
  }

  /** Some members, then the start of one more: nothing of it only if there is no member before it. */
  ghost predicate MidMember<S>(z: Inflater<S>, input: seq<byte>, ms: seq<seq<byte>>, contents: seq<seq<byte>>,
                               tail: seq<byte>)
  {
    && AreMembers(z, ms, contents) && input == Flatten(ms) + tail
    && Feed(z, z.start, tail).Open? && (tail != [] || ms == [])
  }

  /** A stream is one or more members exactly if it decodes whole, and then to their contents in order. */
  lemma MembersDecode<S>(z: Inflater<S>, ms: seq<seq<byte>>, contents: seq<seq<byte>>)
    requires AreMembers(z, ms, contents) && ms != []
    ensures DecodeMembers(z, Flatten(ms)) == Decoded(Flatten(contents), Whole)
  {
    var n := |ms| - 1;
    assert ms == ms[..n] + [ms[n]] && contents == contents[..n] + [contents[n]];
    FlattenOne(ms[..n], ms[n]);
    FlattenOne(contents[..n], contents[n]);
    assert IsMember(z, ms[n], contents[n]);
    MembersFirst(z, ms[..n], contents[..n], ms[n]);
  }

  lemma MidMemberDecodes<S>(z: Inflater<S>, input: seq<byte>, ms: seq<seq<byte>>, contents: seq<seq<byte>>,
                            tail: seq<byte>)
    requires MidMember(z, input, ms, contents, tail)
    ensures DecodeMembers(z, input) == Decoded(Flatten(contents) + Feed(z, z.start, tail).out, Truncated)
  {
    if tail == [] {
      assert Flatten(contents) + [] == [];
    } else {
      MembersFirst(z, ms, contents, tail);
    }
  }

  /** Every stream that is not corrupt falls into members, or into members and an unfinished one. */
  lemma {:induction false} Decompose<S>(z: Inflater<S>, input: seq<byte>)
    returns (ms: seq<seq<byte>>, contents: seq<seq<byte>>, tail: seq<byte>)
    requires DecodeMembers(z, input).verdict != Corrupt
    ensures AreMembers(z, ms, contents) && input == Flatten(ms) + tail
    ensures DecodeMembers(z, input).verdict == Whole ==> tail == [] && ms != []
    ensures DecodeMembers(z, input).verdict == Truncated ==> MidMember(z, input, ms, contents, tail)
    decreases |input|
  {
    var r := Feed(z, z.start, input);
    if r.Open? {
      ms, contents, tail := [], [], input;
    } else {
      var m, rest := input[..r.used], input[r.used..];
      assert input == m + rest;
      EndedStops(z, z.start, m, rest);
      if rest == [] {
        ms, contents, tail := [m], [r.out], [];
        assert Flatten([m]) == m + Flatten([]);
      } else {
        var ms', contents';
        ms', contents', tail := Decompose(z, rest);
        ms, contents := [m] + ms', [r.out] + contents';
        OneMoreMember(z, m, r.out, rest, ms', contents', tail, ms, contents);
      }
    }
  }

  lemma OneMoreMember<S>(z: Inflater<S>, m: seq<byte>, content: seq<byte>, rest: seq<byte>, ms: seq<seq<byte>>,
                         contents: seq<seq<byte>>, tail: seq<byte>, ms': seq<seq<byte>>, contents': seq<seq<byte>>)
    requires IsMember(z, m, content) && AreMembers(z, ms, contents) && rest == Flatten(ms) + tail
    requires ms' == [m] + ms && contents' == [content] + contents
    ensures AreMembers(z, ms', contents') && m + rest == Flatten(ms') + tail
  {
    assert ms'[1..] == ms;
    assert m + (Flatten(ms) + tail) == (m + Flatten(ms)) + tail;
    forall i | 0 <= i < |ms'|
      ensures IsMember(z, ms'[i], contents'[i])
    {
      assert i > 0 ==> IsMember(z, ms[i - 1], contents[i - 1]);
    }
  }

  /** The bytes up to the end of a member are that member. */
  lemma {:induction false} EndedStops<S>(z: Inflater<S>, s: S, a: seq<byte>, b: seq<byte>)
    requires Feed(z, s, a + b).Ended? && Feed(z, s, a + b).used == |a|
    ensures Feed(z, s, a) == Feed(z, s, a + b)
  {
    FeedAppend(z, s, a, b);
  }

  /** The truncation error is raised exactly for streams that end inside a member. */
  lemma TruncatedIff<S>(z: Inflater<S>, input: seq<byte>)
    ensures DecodeMembers(z, input).verdict == Truncated
       <==> exists ms, contents, tail :: MidMember(z, input, ms, contents, tail)
  {
    if DecodeMembers(z, input).verdict == Truncated {
      var ms, contents, tail := Decompose(z, input);
    } else {
      forall ms, contents, tail | MidMember(z, input, ms, contents, tail)
        ensures false
      {
        MidMemberDecodes(z, input, ms, contents, tail);
      }
    }
  }

  lemma WholeIff<S>(z: Inflater<S>, input: seq<byte>)
    ensures DecodeMembers(z, input).verdict == Whole
       <==> exists ms, contents :: AreMembers(z, ms, contents) && ms != [] && input == Flatten(ms)
  {
    if DecodeMembers(z, input).verdict == Whole {
      var ms, contents, tail := Decompose(z, input);
      assert Flatten(ms) + [] == Flatten(ms);
    } else {
      forall ms, contents | AreMembers(z, ms, contents) && ms != [] && input == Flatten(ms)
        ensures false
      {
        MembersDecode(z, ms, contents);
      }
    }
  }

  // ---------------------------------------------------------------- the streaming decoder

  /** Where a decompressor stands between calls. */
  datatype Place<S> = AtEnd | Within(state: S)

  /** What the rest of the stream decodes to from such a place. */
  ghost function DecodeFrom<S>(z: Inflater<S>, at: Place<S>, input: seq<byte>): Decoded
    decreases |input|
  {
    match at
    case AtEnd => if input == [] then Decoded([], Whole) else DecodeMembers(z, input)
    case Within(s) =>
      match Feed(z, s, input)
      case Open(_, out) => Decoded(out, Truncated)
      case Rejected(out) => Decoded(out, Corrupt)
      case Ended(used, out) => After(out, DecodeFrom(z, AtEnd, input[used..]))
  }

  lemma FreshStart<S>(z: Inflater<S>, input: seq<byte>)
    ensures DecodeFrom(z, Within(z.start), input) == DecodeMembers(z, input)
  {
    var r := Feed(z, z.start, input);
    if r.Ended? && r.used == |input| {
      assert input[r.used..] == [];
      assert r.out + [] == r.out;
    }
  }

  lemma AfterAfter(a: seq<byte>, b: seq<byte>, d: Decoded)
    ensures After(a, After(b, d)) == After(a + b, d)
  {
  }

  /** What follows after feeding a, when b is still to come. */
  ghost function Resume<S>(z: Inflater<S>, r: Fed<S>, a: seq<byte>, b: seq<byte>): Decoded
    requires r.Ended? ==> r.used <= |a|
  {
    match r
    case Open(s, out) => After(out, DecodeFrom(z, Within(s), b))
    case Rejected(out) => Decoded(out, Corrupt)
    case Ended(used, out) => After(out, DecodeFrom(z, AtEnd, a[used..] + b))
  }

  /** Decoding a + b from inside a member is decoding a, then b from wherever a left the machine. */
  lemma DecodeSplit<S>(z: Inflater<S>, s: S, a: seq<byte>, b: seq<byte>)
    ensures DecodeFrom(z, Within(s), a + b) == Resume(z, Feed(z, s, a), a, b)
  {
    FeedAppend(z, s, a, b);
    var r := Feed(z, s, a);
    if r.Ended? {
      assert (a + b)[r.used..] == a[r.used..] + b;
    } else if r.Open? {
      var t := Feed(z, r.state, b);
      if t.Ended? {
        assert (a + b)[|a| + t.used..] == b[t.used..];
        AfterAfter(r.out, t.out, DecodeFrom(z, AtEnd, b[t.used..]));
      }
    }
  }

  function NonEmpty(chunks: seq<seq<byte>>): (r: seq<seq<byte>>)
    ensures forall i :: 0 <= i < |r| ==> r[i] != []
    ensures Flatten(r) == Flatten(chunks)
  {
    if chunks == [] then []
    else if chunks[0] == [] then
      assert [] + Flatten(chunks[1..]) == Flatten(chunks[1..]);
      NonEmpty(chunks[1..])
    else
      var rest := NonEmpty(chunks[1..]);
      assert ([chunks[0]] + rest)[1..] == rest;
      [chunks[0]] + rest
  }

  ghost function PlaceOf<S>(d: Decompressor<S>): Place<S>
    reads d
  {
    if d.eof then AtEnd else Within(d.state)
  }

  ghost predicate ReachedWith<S>(z: Inflater<S>, done: seq<byte>, out: seq<byte>, at: Place<S>, rest: seq<byte>) {
    DecodeMembers(z, done + rest) == After(out, DecodeFrom(z, at, rest))
  }

  /** The bytes of the stream so far have given this output and lead to this place, whatever follows. */
  ghost predicate Reached<S>(z: Inflater<S>, done: seq<byte>, out: seq<byte>, at: Place<S>) {
    forall rest {:trigger ReachedWith(z, done, out, at, rest)} :: ReachedWith(z, done, out, at, rest)
  }

  /** At the end of a member, a machine in its starting state will do for what follows. */
  ghost predicate Serves<S>(z: Inflater<S>, at: Place<S>, s: S) {
    match at case AtEnd => s == z.start case Within(s') => s == s'
  }

  lemma ServesFrom<S>(z: Inflater<S>, at: Place<S>, s: S, rest: seq<byte>)
    requires Serves(z, at, s) && rest != []
    ensures DecodeFrom(z, at, rest) == DecodeFrom(z, Within(s), rest)
  {
    FreshStart(z, rest);
  }

  lemma PieceWith<S>(z: Inflater<S>, done: seq<byte>, out: seq<byte>, at: Place<S>, s: S, piece: seq<byte>,
                     rest: seq<byte>)
    requires Reached(z, done, out, at) && Serves(z, at, s) && piece != []
    ensures DecodeMembers(z, done + piece + rest) == After(out, Resume(z, Feed(z, s, piece), piece, rest))
  {
    assert ReachedWith(z, done, out, at, piece + rest);
    assert done + (piece + rest) == done + piece + rest;
    ServesFrom(z, at, s, piece + rest);
    DecodeSplit(z, s, piece, rest);
  }

  /** A piece that leaves its member open. */
  lemma PieceOpen<S>(z: Inflater<S>, done: seq<byte>, out: seq<byte>, at: Place<S>, s: S, piece: seq<byte>)
    requires Reached(z, done, out, at) && Serves(z, at, s) && piece != [] && Feed(z, s, piece).Open?
    ensures var r := Feed(z, s, piece); Reached(z, done + piece, out + r.out, Within(r.state))
  {
    var r := Feed(z, s, piece);
    forall rest
      ensures ReachedWith(z, done + piece, out + r.out, Within(r.state), rest)
    {
      PieceWith(z, done, out, at, s, piece, rest);
      AfterAfter(out, r.out, DecodeFrom(z, Within(r.state), rest));
    }
  }

  /** A piece in which its member ends. */
  lemma PieceEnds<S>(z: Inflater<S>, done: seq<byte>, out: seq<byte>, at: Place<S>, s: S, piece: seq<byte>)
    requires Reached(z, done, out, at) && Serves(z, at, s) && Feed(z, s, piece).Ended?
    ensures var r := Feed(z, s, piece); Reached(z, done + piece[..r.used], out + r.out, AtEnd)
  {
    var r := Feed(z, s, piece);
    var member := piece[..r.used];
    assert piece == member + piece[r.used..];
    EndedStops(z, s, member, piece[r.used..]);
    forall rest
      ensures ReachedWith(z, done + member, out + r.out, AtEnd, rest)
    {
      PieceWith(z, done, out, at, s, member, rest);
      assert member[r.used..] + rest == rest;
      AfterAfter(out, r.out, DecodeFrom(z, AtEnd, rest));
    }
  }

  /** The stream is corrupt however it goes on, and its decoding starts with this output. */
  ghost predicate Spoilt<S>(z: Inflater<S>, done: seq<byte>, out: seq<byte>) {
    forall rest {:trigger SpoiltWith(z, done, out, rest)} :: SpoiltWith(z, done, out, rest)
  }

  ghost predicate SpoiltWith<S>(z: Inflater<S>, done: seq<byte>, out: seq<byte>, rest: seq<byte>) {
    DecodeMembers(z, done + rest).verdict == Corrupt && out <= DecodeMembers(z, done + rest).out
  }

  /** A piece that is rejected: the stream is corrupt, and no member ends in the piece before. */
  lemma PieceRejected<S>(z: Inflater<S>, done: seq<byte>, out: seq<byte>, at: Place<S>, s: S, piece: seq<byte>)
    requires Reached(z, done, out, at) && Serves(z, at, s) && Feed(z, s, piece).Rejected?
    ensures Spoilt(z, done + piece, out)
    ensures forall x :: 0 < x <= |piece| ==> DecodeMembers(z, done + piece[..x]).verdict != Whole
  {
    forall rest
      ensures SpoiltWith(z, done + piece, out, rest)
    {
      PieceWith(z, done, out, at, s, piece, rest);
    }
    forall x | 0 < x <= |piece|
      ensures DecodeMembers(z, done + piece[..x]).verdict != Whole
    {
      assert piece == piece[..x] + piece[x..];
      FeedAppend(z, s, piece[..x], piece[x..]);
      PieceWith(z, done, out, at, s, piece[..x], []);
      assert done + piece[..x] + [] == done + piece[..x];
    }
  }

  /**
    A chunk is cut off at j by corrupt data: everything before j was decoded, j is the start of the chunk or the end
    of a member, and no other member ends in the chunk after it.
  */
  ghost predicate CutOff<S>(z: Inflater<S>, done: seq<byte>, chunk: seq<byte>, j: nat, out: seq<byte>) {
    && j < |chunk|
    && DecodeMembers(z, done + chunk[..j]).out == out
    && (DecodeMembers(z, done + chunk[..j]).verdict == Whole ||
        (j == 0 && DecodeMembers(z, done + chunk[..j]).verdict == Truncated))
    && (forall x :: j < x <= |chunk| ==> DecodeMembers(z, done + chunk[..x]).verdict != Whole)
    && DecodeMembers(z, done + chunk).verdict == Corrupt
  }

  /** The first j bytes of the chunk are decoded, and lead to this place. */
  ghost predicate InChunk<S>(z: Inflater<S>, done: seq<byte>, chunk: seq<byte>, j: nat, out: seq<byte>, at: Place<S>) {
    j <= |chunk| && (j > 0 ==> at.AtEnd?) && Reached(z, done + chunk[..j], out, at)
  }

  lemma ChunkStarts<S>(z: Inflater<S>, done: seq<byte>, chunk: seq<byte>, out: seq<byte>, at: Place<S>)
    requires Reached(z, done, out, at)
    ensures InChunk(z, done, chunk, 0, out, at)
  {
    assert done + chunk[..0] == done;
  }

  lemma ChunkOpen<S>(z: Inflater<S>, done: seq<byte>, chunk: seq<byte>, j: nat, out: seq<byte>, at: Place<S>, s: S,
                     piece: seq<byte>)
    requires InChunk(z, done, chunk, j, out, at) && Serves(z, at, s) && piece == chunk[j..] && piece != []
    requires Feed(z, s, piece).Open?
    ensures var r := Feed(z, s, piece); Reached(z, done + chunk, out + r.out, Within(r.state))
  {
    PieceOpen(z, done + chunk[..j], out, at, s, piece);
    assert done + chunk[..j] + piece == done + chunk;
  }

  lemma ChunkEnds<S>(z: Inflater<S>, done: seq<byte>, chunk: seq<byte>, j: nat, out: seq<byte>, at: Place<S>, s: S,
                     piece: seq<byte>)
    requires InChunk(z, done, chunk, j, out, at) && Serves(z, at, s) && piece == chunk[j..] && Feed(z, s, piece).Ended?
    ensures var r := Feed(z, s, piece);
            InChunk(z, done, chunk, j + r.used, out + r.out, AtEnd) && piece[r.used..] == chunk[j + r.used..]
  {
    var r := Feed(z, s, piece);
    PieceEnds(z, done + chunk[..j], out, at, s, piece);
    assert done + chunk[..j] + piece[..r.used] == done + chunk[..j + r.used];
  }

  lemma ChunkRejected<S>(z: Inflater<S>, done: seq<byte>, chunk: seq<byte>, j: nat, out: seq<byte>, at: Place<S>, s: S,
                         piece: seq<byte>)
    requires InChunk(z, done, chunk, j, out, at) && Serves(z, at, s) && piece == chunk[j..] && j < |chunk|
    requires Feed(z, s, piece).Rejected?
    ensures CutOff(z, done, chunk, j, out) && Spoilt(z, done + chunk, out)
  {
    var before := done + chunk[..j];
    assert before + piece == done + chunk;
    PieceRejected(z, before, out, at, s, piece);
    assert SpoiltWith(z, done + chunk, out, []) && done + chunk + [] == done + chunk;
    assert ReachedWith(z, before, out, at, []);
    assert before + [] == before && out + [] == out;
    forall x | j < x <= |chunk|
      ensures DecodeMembers(z, done + chunk[..x]).verdict != Whole
    {
      assert before + piece[..x - j] == done + chunk[..x];
    }
  }

  predicate AllNonEmpty(out: seq<seq<byte>>) {
    forall i :: 0 <= i < |out| ==> out[i] != []
  }

  method Emit(out: seq<seq<byte>>, o: seq<byte>) returns (r: seq<seq<byte>>)
    requires AllNonEmpty(out)
    ensures AllNonEmpty(r) && Flatten(r) == Flatten(out) + o
  {
    if o != [] {
      r := out + [o];
      FlattenOne(out, o);
    } else {
      r := out;
      assert Flatten(out) + [] == Flatten(out);
    }
  }

  /** The decompressor stands where the bytes so far lead to, and the chunks so far are their output. */
  ghost predicate OnTrack<S>(z: Inflater<S>, done: seq<byte>, out: seq<seq<byte>>, d: Decompressor<S>)
    reads d
  {
    d.z == z && d.unused == [] && Reached(z, done, Flatten(out), PlaceOf(d))
  }

  /** The decompressor takes up the rest of the chunk at this place, as it is or as a new one after the end. */
  ghost predicate TakesUp<S>(z: Inflater<S>, at: Place<S>, d: Decompressor<S>)
    reads d
  {
    d.z == z && d.unused == [] && if d.eof then at.AtEnd? else Serves(z, at, d.state)
  }

  /** One call of the decompressor on the rest of the chunk, and its output. */
  method DecodePiece<S>(z: Inflater<S>, pending: seq<byte>, out0: seq<seq<byte>>, d: Decompressor<S>,
                        ghost done: seq<byte>, ghost chunk: seq<byte>, ghost j: nat, ghost at: Place<S>)
    returns (ok: bool, out: seq<seq<byte>>, ghost j': nat)
    requires AllNonEmpty(out0) && TakesUp(z, at, d) && pending != []
    requires InChunk(z, done, chunk, j, Flatten(out0), at) && pending == chunk[j..]
    modifies d
    ensures AllNonEmpty(out) && d.z == z
    ensures !ok ==> CutOff(z, done, chunk, j, Flatten(out)) && Spoilt(z, done + chunk, Flatten(out))
    ensures ok && !d.eof ==> OnTrack(z, done + chunk, out, d)
    ensures ok && d.eof ==> InChunk(z, done, chunk, j', Flatten(out), AtEnd) && d.unused == chunk[j'..]
    ensures ok && d.eof ==> j <= j' && (j == j' ==> old(d.eof))
  {
    ghost var s, running, before := d.state, !d.eof, Flatten(out0);
    var o;
    ok, o := d.Decompress(pending);
    out, j' := out0, j;
    if !ok {
      ChunkRejected(z, done, chunk, j, before, at, s, pending);
      return;
    }
    out := Emit(out, o);
    if !d.eof {
      ChunkOpen(z, done, chunk, j, before, at, s, pending);
    } else if running {
      ChunkEnds(z, done, chunk, j, before, at, s, pending);
      j' := j + Feed(z, s, pending).used;
    } else {
      assert before + [] == before;
    }
  }

  /** The inner loop: decode one chunk, member after member. */
  method DecodeChunk<S>(z: Inflater<S>, chunk: seq<byte>, out0: seq<seq<byte>>, d0: Decompressor<S>,
                        ghost done: seq<byte>)
    returns (ok: bool, out: seq<seq<byte>>, d: Decompressor<S>, ghost j: nat)
    requires AllNonEmpty(out0) && OnTrack(z, done, out0, d0)
    modifies d0
    ensures AllNonEmpty(out) && (d == d0 || fresh(d))
    ensures ok ==> OnTrack(z, done + chunk, out, d)
    ensures !ok ==> CutOff(z, done, chunk, j, Flatten(out)) && Spoilt(z, done + chunk, Flatten(out))
  {
    ok, out, d, j := true, out0, d0, 0;
    var pending := chunk;
    ghost var at := PlaceOf(d);
    ChunkStarts(z, done, chunk, Flatten(out), at);
    while pending != []
      invariant AllNonEmpty(out) && (d == d0 || fresh(d)) && TakesUp(z, at, d) && ok
      invariant InChunk(z, done, chunk, j, Flatten(out), at) && pending == chunk[j..]
      invariant pending == [] ==> PlaceOf(d) == at
      decreases |pending|, d.eof
    {
      ghost var j';
      ok, out, j' := DecodePiece(z, pending, out, d, done, chunk, j, at);
      if !ok || !d.eof {
        return;
      }
      j, at := j', AtEnd;
      pending := d.unused;
      if pending != [] {
        d := new Decompressor(z);
      }
    }
    assert chunk[..j] == chunk;
  }

  /** The two bytes that every gzip member starts with. */
  predicate HasMagic(s: seq<byte>) {
    |s| >= 2 && s[0] == 0x1f && s[1] == 0x8b
  }

  /** The stream is taken for gzip: the first chunk that is not empty starts with the magic bytes. */
  predicate Sniffed(chunks: seq<seq<byte>>) {
    var nonempty := NonEmpty(chunks);
    nonempty != [] && HasMagic(nonempty[0])
  }

  /**
    `_gunzip_if_needed`.  A stream that does not look like gzip passes through unchanged; one that does
    decodes, however it was cut into chunks, to what the whole stream decodes to, with the same verdict.
    On corrupt data the chunks already yielded are the output up to the start of the corrupt chunk, or up to the last
    member that ends in it.
  */
  method GunzipIfNeeded<S>(z: Inflater<S>, chunks: seq<seq<byte>>) returns (out: seq<seq<byte>>, verdict: Verdict)
    ensures AllNonEmpty(out)
    ensures !Sniffed(chunks) ==> Flatten(out) == Flatten(chunks) && verdict == Whole
    ensures Sniffed(chunks) ==>
      var whole := DecodeMembers(z, Flatten(chunks));
      && verdict == whole.verdict
      && (if verdict == Corrupt then Flatten(out) <= whole.out else Flatten(out) == whole.out)
    ensures verdict == Corrupt ==>
      exists k, j :: CutOffAt(z, NonEmpty(chunks), k, j, Flatten(out))
  {
    var nonempty := NonEmpty(chunks);
    if nonempty == [] || !(GZIP_MAGIC <= nonempty[0]) {
      return nonempty, Whole;
    }
    out := [];
    var d := new Decompressor(z);
    AtStart(z);
    var k := 0;
    while k < |nonempty|
      invariant 0 <= k <= |nonempty| && AllNonEmpty(out) && fresh(d)
      invariant OnTrack(z, Flatten(nonempty[..k]), out, d)
    {
      ghost var done, rest := Flatten(nonempty[..k]), Flatten(nonempty[k + 1..]);
      assert nonempty[..k + 1] == nonempty[..k] + [nonempty[k]];
      FlattenOne(nonempty[..k], nonempty[k]);
      var ok;
      ghost var j;
      ok, out, d, j := DecodeChunk(z, nonempty[k], out, d, done);
      if !ok {
        FlattenAppend(nonempty[..k + 1], nonempty[k + 1..]);
        assert nonempty == nonempty[..k + 1] + nonempty[k + 1..];
        assert SpoiltWith(z, done + nonempty[k], Flatten(out), rest);
        assert CutOffAt(z, nonempty, k, j, Flatten(out));
        return out, Corrupt;
      }
      k := k + 1;
    }
    verdict := if d.eof then Whole else Truncated;
    assert nonempty[..k] == nonempty;
    assert ReachedWith(z, Flatten(nonempty), Flatten(out), PlaceOf(d), []);
    assert Flatten(nonempty) + [] == Flatten(nonempty) && Flatten(out) + [] == Flatten(out);
  }

  ghost predicate CutOffAt<S>(z: Inflater<S>, chunks: seq<seq<byte>>, k: nat, j: nat, out: seq<byte>) {
    k < |chunks| && CutOff(z, Flatten(chunks[..k]), chunks[k], j, out)
  }

  lemma AtStart<S>(z: Inflater<S>)
    ensures Reached(z, [], [], Within(z.start))
  {
    forall rest
      ensures ReachedWith(z, [], [], Within(z.start), rest)
    {
      FreshStart(z, rest);
      assert [] + rest == rest && [] + DecodeMembers(z, rest).out == DecodeMembers(z, rest).out;
    }
  }

  /** The sniffed chunk is a single byte of a stream that does start with the magic bytes. */
  ghost predicate MagicHidden(chunks: seq<seq<byte>>) {
    NonEmpty(chunks) != [] && |NonEmpty(chunks)[0]| == 1 && HasMagic(Flatten(chunks))
  }

  /** Looking at the first chunk is as good as looking at the stream, exactly unless that chunk hides the magic. */
  lemma SniffedIff(chunks: seq<seq<byte>>)
    ensures (Sniffed(chunks) <==> HasMagic(Flatten(chunks))) <==> !MagicHidden(chunks)
  {
    var nonempty := NonEmpty(chunks);
    if nonempty != [] {
      assert Flatten(chunks) == nonempty[0] + Flatten(nonempty[1..]);
      assert nonempty[0] != [];
      if |nonempty[0]| >= 2 {
        assert nonempty[0][0] == Flatten(chunks)[0] && nonempty[0][1] == Flatten(chunks)[1];
      }
    }
  }

  /** A first chunk of one byte hides the magic: such a gzip stream is passed through as it is. */
  lemma HiddenMagic()
    ensures MagicHidden([[0x1f], [0x8b, 8]]) && !Sniffed([[0x1f], [0x8b, 8]])
  {
    var chunks: seq<seq<byte>> := [[0x1f], [0x8b, 8]];
    assert chunks[1..] == [[0x8b, 8]];
    assert NonEmpty(chunks[1..]) == [[0x8b, 8]] + NonEmpty(chunks[1..][1..]);
    assert NonEmpty(chunks)[0] == [0x1f];
    assert Flatten(chunks) == [0x1f] + Flatten(chunks[1..]);
    assert Flatten(chunks[1..]) == [0x8b, 8] + Flatten(chunks[1..][1..]);
  }
}
