/** `streaming_parser`: takes whole chunks of input, and resumes inside headers and strings.
  Sources: msgpack.cc (streaming_parser::consume), msgpack.hh, mtd.cc (conn::receive). */
module StreamingParsers {
  import opened MsgPackFormat
  import opened MsgPackParser

  // ----- steps of several bytes

  /** Part of a header at the end of a chunk. */
  lemma HeaderKept(p: Parser, t: Bytes)
    requires AtStart(p) && t != [] && |t| < HeaderSize(t[0])
    ensures Run(p, t) == (p.(phase := Partial, str := t), |t|)
  {
    hide Header, HeaderSize, Run;
    assert t == [t[0]] + t[1..];
    RunFirst(p, t[0], t[1..]);
    PartialKept(p.(phase := Partial, str := [t[0]]), [t[0]], t[1..]);
  }

  /** A header begun in an earlier chunk. */
  lemma HeaderCompleted(p: Parser, s: Bytes, t: Bytes, rest: Bytes)
    requires AtStart(p) && s != [] && t != [] && IsHeader(s + t)
    ensures Run(p.(phase := Partial, str := s), t + rest) == After(Header(p, s + t), |t|, rest)
  {
    hide Header, HeaderSize, Run;
    assert (s + t)[..|s|] == s && (s + t)[|s|..] == t;
    PartialRuns(p, s + t, |s|, rest);
  }

  lemma RefusedRuns(p: Parser, input: Bytes)
    requires AtStart(p) && input != [] && HeaderSize(input[0]) == 0
    ensures Run(p, input) == (p.(phase := Failed), 0)
  {
  }

  /** The bytes of `input` from `pos` to `end` lead from `was` to `p`, and the run goes on with the rest. */
  ghost predicate Span(was: Parser, input: Bytes, pos: nat, p: Parser, end: nat) {
    pos <= end <= |input| && Run(was, input[pos..]) == After(p, end - pos, input[end..])
  }

  lemma SpanEmpty(p: Parser, input: Bytes, pos: nat)
    requires pos <= |input|
    ensures Span(p, input, pos, p, pos)
  {
    hide Feed, Refused;
  }

  lemma SpanJoin(was: Parser, input: Bytes, pos: nat, p: Parser, mid: nat, q: Parser, end: nat)
    requires Span(was, input, pos, p, mid) && Span(p, input, mid, q, end)
    ensures Span(was, input, pos, q, end)
  {
    hide Run;
  }

  /** A run over all the rest. */
  lemma SpanAll(was: Parser, input: Bytes, pos: nat, p: Parser)
    requires pos <= |input| && Run(was, input[pos..]) == (p, |input| - pos)
    ensures Span(was, input, pos, p, |input|)
  {
    hide Run;
    DoneOrEmpty(p, input[|input|..]);
  }

  lemma DoneOrEmpty(p: Parser, rest: Bytes)
    requires Done(p) || rest == []
    ensures Run(p, rest) == (p, 0)
  {
  }

  /** A run that ends at `end`, done or with nothing left. */
  lemma SpanStops(was: Parser, input: Bytes, p: Parser, end: nat)
    requires Span(was, input, 0, p, end) && (end == |input| || Done(p))
    ensures Run(was, input) == (p, end)
  {
    hide Run;
    assert input[0..] == input;
    DoneOrEmpty(p, input[end..]);
  }

  /** With input left a parser that is not done goes on. */
  lemma SpanGoesOn(was: Parser, input: Bytes, p: Parser, end: nat)
    requires Span(was, input, 0, p, end) && end < |input| && p.phase == InString
    ensures Run(was, input).1 > end
  {
    assert input[0..] == input;
    hide Feed;
  }

  /** A span of the rest of the input. */
  lemma SpanOfRest(was: Parser, input: Bytes, p: Parser, taken: nat, q: Parser, more: nat)
    requires Span(was, input, 0, p, taken) && Span(p, input[taken..], 0, q, more)
    ensures Span(was, input, 0, q, taken + more)
  {
    hide Run;
    assert input[taken..][0..] == input[taken..] && input[taken..][more..] == input[taken + more..];
    SpanJoin(was, input, 0, p, taken, q, taken + more);
  }

  lemma SpanBounds(was: Parser, input: Bytes, pos: nat, p: Parser, end: nat)
    requires Span(was, input, pos, p, end)
    ensures pos <= end <= |input|
  {
  }

  lemma RefusedSpan(p: Parser, input: Bytes, pos: nat)
    requires AtStart(p) && pos < |input| && HeaderSize(input[pos]) == 0
    ensures Span(p, input, pos, p.(phase := Failed), pos)
  {
    RefusedRuns(p, input[pos..]);
    DoneOrEmpty(p.(phase := Failed), input[pos..]);
    hide Run, HeaderSize;
  }

  lemma HeaderKeptSpan(p: Parser, input: Bytes, pos: nat)
    requires AtStart(p) && pos < |input| && |input| - pos < HeaderSize(input[pos])
    ensures Span(p, input, pos, p.(phase := Partial, str := input[pos..]), |input|)
  {
    hide Run, HeaderSize;
    HeaderKept(p, input[pos..]);
    SpanAll(p, input, pos, p.(phase := Partial, str := input[pos..]));
  }

  lemma HeaderSpan(p: Parser, input: Bytes, pos: nat, h: Bytes)
    requires AtStart(p) && IsHeader(h) && pos + |h| <= |input| && h == input[pos..pos + |h|]
    ensures Span(p, input, pos, Header(p, h), pos + |h|)
  {
    hide Run, Header, IsHeader;
    assert input[pos..] == h + input[pos + |h|..];
    HeaderRuns(p, h, input[pos + |h|..]);
  }

  lemma StringKeptSpan(p: Parser, input: Bytes, pos: nat)
    requires p.phase == InString && p.stack != [] && pos <= |input| && |p.str| + (|input| - pos) < Last(p.stack).size
    ensures Span(p, input, pos, p.(str := p.str + input[pos..]), |input|)
  {
    hide Run;
    StringKept(p, input[pos..]);
    SpanAll(p, input, pos, p.(str := p.str + input[pos..]));
  }

  lemma StringSpan(p: Parser, input: Bytes, pos: nat, s: Bytes)
    requires p.phase == InString && p.stack != [] && s != [] && pos + |s| <= |input| && s == input[pos..pos + |s|]
    requires |p.str| + |s| == Last(p.stack).size
    ensures Span(p, input, pos, StringRead(p, p.str + s), pos + |s|)
  {
    hide Run, StringRead;
    assert input[pos..] == s + input[pos + |s|..];
    StringRuns(p, s, input[pos + |s|..]);
  }

  /** How many bytes a header or string begun in an earlier call still needs. */
  function Missing(p: Parser): int {
    if p.phase == Partial && p.str != [] then HeaderSize(p.str[0]) - |p.str|
    else if p.phase == InString && p.stack != [] then Last(p.stack).size - |p.str|
    else 0
  }

  /** Where a call of `consume` stops with input left although the parser is not done: behind the header of a string
      that an earlier call had begun. */
  predicate StopsShort(p: Parser, input: Bytes) {
    && p.phase == Partial && 0 < Missing(p) < |input|
    && var h := p.str + input[..Missing(p)];
       IsHeader(h) && Decode(h).Raw? && 0 < Decode(h).n < LIMIT
  }

  lemma NeverShort(p: Parser, input: Bytes)
    ensures p.phase != Partial ==> !StopsShort(p, input)
  {
  }

  /** What a call of `consume` has to show. */
  lemma Outcome(was: Parser, input: Bytes, p: Parser, taken: nat)
    requires Span(was, input, 0, p, taken)
    requires if StopsShort(was, input) then p.phase == InString && 0 < taken < |input| else taken == |input| || Done(p)
    ensures (p, taken) == Run(was, input) <==> !StopsShort(was, input)
    ensures input != [] ==> taken > 0 || Done(p)
  {
    hide StopsShort, Run, Span;
    if StopsShort(was, input) {
      SpanGoesOn(was, input, p, taken);
    } else {
      SpanStops(was, input, p, taken);
    }
  }

  lemma HeaderStillKept(p: Parser, input: Bytes)
    requires p.phase == Partial && p.str != [] && |p.str| + |input| < HeaderSize(p.str[0])
    ensures Span(p, input, 0, p.(str := p.str + input), |input|) && !StopsShort(p, input)
  {
    PartialKept(p, p.str, input);
    hide HeaderSize, Run;
    assert input[0..] == input;
    SpanAll(p, input, 0, p.(str := p.str + input));
  }

  /** A header completed by the first `k` bytes of `input`. */
  lemma HeaderResumed(start: Parser, s: Bytes, input: Bytes, h: Bytes, k: nat)
    requires AtStart(start) && s != [] && 0 < k <= |input| && h == s + input[..k] && IsHeader(h)
    ensures Span(start.(phase := Partial, str := s), input, 0, Header(start, h), k)
    ensures Run(start, h) == (Header(start, h), |h|)
    ensures StopsShort(start.(phase := Partial, str := s), input) <==> k < |input| && Decode(h).Raw? && 0 < Decode(h).n < LIMIT
    ensures Missing(start.(phase := Partial, str := s)) == k
  {
    hide Header, Decode, HeaderSize, Run;
    HeaderCompleted(start, s, input[..k], input[k..]);
    assert input[..k] + input[k..] == input == input[0..] && h + [] == h && h[0] == s[0];
    HeaderRuns(start, h, []);
    DoneOrEmpty(Header(start, h), []);
  }

  /** Only the header of a string leaves the parser inside one. */
  lemma HeaderPhase(p: Parser, h: Bytes)
    requires AtStart(p) && IsHeader(h)
    ensures Header(p, h).phase == InString <==> Decode(h).Raw? && 0 < Decode(h).n < LIMIT
    ensures Header(p, h).phase != Partial
  {
    hide Decode, HeaderSize, Set, At, PathOf, IndexOf, Resized, Popped;
  }

  /** Such inputs: the type byte of a string came before, now its length and some of what follows. */
  lemma ResumedStringStopsShort(p: Parser, n: Byte, rest: Bytes)
    requires p.phase == Partial && p.str == [FSTR8] && n > 0 && rest != []
    ensures StopsShort(p, [n] + rest)
  {
    assert p.str + ([n] + rest)[..1] == [FSTR8, n];
    assert [FSTR8, n][1..] == [n] && Number([n]) == n;
  }

  lemma ChunksFrom(p: Parser, chunks: seq<Bytes>, i: nat)
    requires i <= |chunks|
    ensures
      var r := RunChunks(p, chunks[i..]);
      if i == |chunks| || Done(p) then r == (p, 0)
      else var q := Run(p, chunks[i]); r == (RunChunks(q.0, chunks[i + 1..]).0, q.1 + RunChunks(q.0, chunks[i + 1..]).1)
  {
    hide Run;
    assert i < |chunks| ==> chunks[i..][1..] == chunks[i + 1..];
  }

  class StreamingParser {
    var phase: Phase
    var stack: seq<Elem>
    var str: Bytes
    var json: Json
    var jokey: Json

    /** The machine's state; what `str` holds outside of headers and strings is of no use. */
    ghost function State(): Parser
      reads this
    {
      Parser(phase, stack, if phase == Partial || phase == InString then str else [], json)
    }

    ghost predicate Valid()
      reads this
    {
      && (phase == Partial ==> str != [] && |str| < HeaderSize(str[0]))
      && (phase == InString ==> stack != [] && |str| < Last(stack).size)
    }

    constructor ()
      ensures Valid() && State() == Parser(Normal, [], [], Null)
    {
      phase, stack, str, json, jokey := Normal, [], [], Null, Null;
    }

    method Reset()
      modifies this
      ensures Valid() && State() == Parser(Normal, [], [], old(json))
    {
      phase, stack := Normal, [];
    }

    /** `*jx = v`. */
    method Store(v: Json)
      requires phase == Normal
      modifies this`json, this`jokey
      ensures State() == Put(old(State()), v) && (AtKey(stack) ==> jokey == v)
    {
      if AtKey(stack) {
        jokey := v;
      } else {
        json := Set(json, PathOf(stack), v);
      }
    }

    /** `get_insert` in the object on top, for the key just read. */
    method TakeKey()
      requires phase == Normal && stack != [] && (jokey.Str? || jokey.Int? || jokey.Unsigned?)
      modifies this`json, this`stack
      ensures State() == KeyTaken(old(State()), ToS(jokey))
    {
      var key, c := ToS(jokey), PathOf(Init(stack));
      var o := MembersOf(At(json, c));
      var i := IndexOf(o, key);
      if i == |o| {
        o := o + [Member(key, Null)];
      }
      json := Set(json, c, Obj(o));
      stack := Init(stack) + [Elem(Child(i), Last(stack).size)];
    }

    /** Containers that are complete are left, and the next place is found. */
    method LeaveCompleted()
      requires phase == Normal
      modifies this`phase, this`stack
      ensures Valid() && State() == Advance(old(State())) && (phase == Normal || phase == Final)
    {
      while stack != [] && Last(stack).size == 0
        invariant phase == Normal && Popped(stack) == Popped(old(stack))
        decreases |stack|
      {
        stack := Init(stack);
      }
      if stack == [] {
        phase := Final;
      } else {
        var jo := At(json, PathOf(Init(stack)));
        stack := Init(stack) + [Elem(Following(jo, Last(stack).at), Last(stack).size - 1)];
      }
    }

    /** The code behind the label `next`; `jx` is the value just stored. */
    method Go(jx: Json, n: nat)
      requires phase == Normal && (AtKey(stack) ==> jokey == jx)
      modifies this`phase, this`stack, this`json
      ensures Valid() && State() == Next(old(State()), jx, n) && (phase == Normal || Done(State()))
    {
      if AtKey(stack) {
        if !jx.Str? && !jx.Int? && !jx.Unsigned? {
          phase := Failed;
          return;
        }
        TakeKey();
      } else if jx.Arr? && n != 0 {
        stack := stack + [Elem(Child(0), n - 1)];
      } else if jx.Obj? && n != 0 {
        stack := stack + [Elem(KeyPlace, n - 1)];
      } else {
        LeaveCompleted();
      }
    }

    method Take(jx: Json, n: nat)
      requires phase == Normal
      modifies this`phase, this`stack, this`json, this`jokey
      ensures Valid() && State() == Accept(old(State()), jx, n) && (phase == Normal || Done(State()))
    {
      Store(jx);
      Go(jx, n);
    }

    /** A string whose header ends at `pos`. */
    method TakeRaw(input: Bytes, pos: nat, n: nat) returns (end: nat)
      requires phase == Normal && pos <= |input| && 0 < n
      modifies this
      ensures Valid() && Span(old(State()).(phase := InString, stack := old(stack) + [Elem(NoPlace, n)]), input, pos, State(), end)
      ensures phase == Normal || Done(State()) || end == |input|
    {
      ghost var p := State();
      ghost var q := p.(phase := InString, stack := stack + [Elem(NoPlace, n)]);
      hide Span, Accept, Done;
      if |input| - pos < n {
        StringKeptSpan(q, input, pos);
        str := input[pos..];
        stack := stack + [Elem(NoPlace, n)];
        phase := InString;
        assert q.str + str == str;
        return |input|;
      }
      end := pos + n;
      var s := input[pos..end];
      StringSpan(q, input, pos, s);
      StringReadIs(p, n, s);
      assert q.str + s == s;
      Take(Str(s), 0);
    }

    /** What follows a header that ends at `pos`. */
    method TakeHeader(h: Bytes, input: Bytes, pos: nat) returns (end: nat)
      requires phase == Normal && IsHeader(h) && pos <= |input|
      modifies this
      ensures Valid() && Span(Header(old(State()), h), input, pos, State(), end)
      ensures phase == Normal || Done(State()) || end == |input|
    {
      SpanEmpty(Header(State(), h), input, pos);
      hide Span, Accept, IsHeader, Resized;
      end := pos;
      match Decode(h)
      case Scalar(v) => Take(v, 0);
      case MapOf(n) =>
        if n >= LIMIT {
          phase := Wide;
        } else {
          Take(Obj([]), n);
        }
      case ArrayOf(n) =>
        if n >= LIMIT {
          phase := Wide;
        } else {
          var jx := At(json, PathOf(stack));
          Take(Arr(Resized(jx, n)), n);
        }
      case Raw(n) =>
        if n >= LIMIT {
          phase := Wide;
        } else if n == 0 {
          Take(Str([]), 0);
        } else {
          end := TakeRaw(input, pos, n);
        }
    }

    /** One turn of the loop: the token at `pos`. */
    method TakeToken(input: Bytes, pos: nat) returns (end: nat)
      requires phase == Normal && pos < |input|
      modifies this
      ensures Valid() && Span(old(State()), input, pos, State(), end)
      ensures if phase == Normal then end > pos else Done(State()) || end == |input|
    {
      hide Span, Header, HeaderSize;
      ghost var p := State();
      var size := HeaderSize(input[pos]);
      if size == 0 {
        RefusedSpan(p, input, pos);
        phase := Failed;
        return pos;
      }
      if |input| - pos < size {
        HeaderKeptSpan(p, input, pos);
        str := input[pos..];
        phase := Partial;
        return |input|;
      }
      var h := input[pos..pos + size];
      HeaderSpan(p, input, pos, h);
      end := TakeHeader(h, input, pos + size);
      SpanJoin(p, input, pos, Header(p, h), pos + size, State(), end);
      SpanBounds(Header(p, h), input, pos + size, State(), end);
    }

    /** The loop over whole tokens. */
    method TakeTokens(input: Bytes, pos: nat) returns (taken: nat)
      requires phase == Normal && pos <= |input|
      modifies this
      ensures Valid() && Span(old(State()), input, pos, State(), taken)
      ensures taken == |input| || Done(State())
    {
      hide Span, Done;
      ghost var was := State();
      taken := pos;
      SpanEmpty(was, input, pos);
      while taken < |input|
        invariant phase == Normal && pos <= taken <= |input| && Span(was, input, pos, State(), taken)
      {
        ghost var p, k := State(), taken;
        taken := TakeToken(input, taken);
        SpanJoin(was, input, pos, p, k, State(), taken);
        SpanBounds(p, input, k, State(), taken);
        if phase != Normal {
          return;
        }
      }
    }

    /** The resumption inside a string. */
    method ResumeString(input: Bytes) returns (taken: nat)
      requires Valid() && phase == InString
      modifies this
      ensures Valid() && Span(old(State()), input, 0, State(), taken)
      ensures phase == Normal || Done(State()) || taken == |input|
    {
      hide Span, Accept, Done;
      ghost var p := State();
      var need := Last(stack).size - |str|;
      taken := if |input| < need then |input| else need;
      assert input[..taken] == input[0..0 + taken];
      if |input| < need {
        assert input[0..] == input[..taken];
        StringKeptSpan(p, input, 0);
      } else {
        StringSpan(p, input, 0, input[..taken]);
      }
      str := str + input[..taken];
      if |str| != Last(stack).size {
        return;
      }
      stack := Init(stack);
      phase := Normal;
      Take(Str(str), 0);
    }

    /** The resumption inside a header: when it is complete, it is read by a call of its own. */
    method ResumeHeader(input: Bytes) returns (taken: nat)
      requires Valid() && phase == Partial
      modifies this
      ensures Valid() && Span(old(State()), input, 0, State(), taken)
      ensures StopsShort(old(State()), input) ==> phase == InString && 0 < taken == Missing(old(State())) < |input|
      ensures !StopsShort(old(State()), input) ==> phase == Normal || Done(State()) || taken == |input|
      decreases 1
    {
      hide Run, Accept, Header, HeaderSize, Decode, Span;
      ghost var p := State();
      var need := HeaderSize(str[0]) - |str|;
      taken := if |input| < need then |input| else need;
      str := str + input[..taken];
      if |str| != HeaderSize(str[0]) {
        assert input[..taken] == input;
        HeaderStillKept(p, input);
        return;
      }
      ghost var start := p.(phase := Normal, str := []);
      phase := Normal;
      var header := str;
      HeaderResumed(start, p.str, input, header, taken);
      var _ := Consume(header);
      assert State() == Header(start, header);
      HeaderPhase(start, header);
    }

    /** `consume`: takes what it can of a chunk.  The outcome is that of the byte machine, except behind the header
        of a string that was begun before; there the caller has to call again with the rest. */
    method Consume(input: Bytes) returns (taken: nat)
      requires Valid()
      modifies this
      ensures Valid() && Span(old(State()), input, 0, State(), taken)
      ensures (State(), taken) == Run(old(State()), input) <==> !StopsShort(old(State()), input)
      ensures StopsShort(old(State()), input) ==> phase == InString && 0 < taken == Missing(old(State())) < |input|
      ensures input != [] ==> taken > 0 || Done(State())
      decreases if phase == Partial then 2 else 0
    {
      hide Run, Span, StopsShort, Missing;
      ghost var was := State();
      taken := 0;
      SpanEmpty(was, input, 0);
      NeverShort(was, input);
      if phase == InString {
        taken := ResumeString(input);
      } else if phase == Partial {
        taken := ResumeHeader(input);
      }
      if phase == Normal {
        ghost var p, k := State(), taken;
        SpanBounds(was, input, 0, p, k);
        taken := TakeTokens(input, taken);
        SpanJoin(was, input, 0, p, k, State(), taken);
      }
      Outcome(was, input, State(), taken);
    }

    /** The loop of a connection over its buffer: `consume` is called with what it has left until the parser is done. */
    method Drain(input: Bytes) returns (taken: nat)
      requires Valid()
      modifies this
      ensures Valid() && (State(), taken) == Run(old(State()), input)
    {
      hide Run, Span, StopsShort, Missing;
      ghost var was := State();
      taken := 0;
      SpanEmpty(was, input, 0);
      while taken < |input| && phase != Final && phase != Failed && phase != Wide
        invariant Valid() && taken <= |input| && Span(was, input, 0, State(), taken)
        decreases |input| - taken, if Done(State()) then 0 else 1
      {
        ghost var p := State();
        var more := Consume(input[taken..]);
        SpanOfRest(was, input, p, taken, State(), more);
        SpanBounds(was, input, 0, State(), taken + more);
        taken := taken + more;
      }
      SpanStops(was, input, State(), taken);
    }

    /** `conn::receive` with the buffer filled again and again: the outcome is that of the bytes in one piece. */
    method Receive(chunks: seq<Bytes>) returns (taken: nat)
      requires Valid()
      modifies this
      ensures Valid() && (State(), taken) == Run(old(State()), Flat(chunks))
    {
      hide Run, Flat, RunChunks;
      ghost var was := State();
      taken := 0;
      var i := 0;
      assert chunks[0..] == chunks;
      while i < |chunks| && phase != Final && phase != Failed && phase != Wide
        invariant Valid() && i <= |chunks|
        invariant RunChunks(was, chunks) == (RunChunks(State(), chunks[i..]).0, taken + RunChunks(State(), chunks[i..]).1)
      {
        ChunksFrom(State(), chunks, i);
        var more := Drain(chunks[i]);
        taken := taken + more;
        i := i + 1;
      }
      ChunksFrom(State(), chunks, i);
      ChunksDoNotMatter(was, chunks);
    }
  }
}
