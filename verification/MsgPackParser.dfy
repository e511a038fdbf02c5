/** The resumable MessagePack parser: a machine that takes one byte at a time, the parser that takes
  whole chunks and agrees with it, and the round trip with the encoder.
  Sources: msgpack.cc (streaming_parser::consume), msgpack.hh. */
module MsgPackParser {
  import opened MsgPackFormat

  // ----- places in a value: pointers into it are paths of positions

  type Path = seq<nat>

  function At(j: Json, path: Path): Json
    decreases |path|
  {
    if path == [] then j
    else match j
      case Arr(a) => if path[0] < |a| then At(a[path[0]], path[1..]) else Null
      case Obj(o) => if path[0] < |o| then At(o[path[0]].value, path[1..]) else Null
      case _ => Null
  }

  predicate PathOk(j: Json, path: Path)
    decreases |path|
  {
    path == [] ||
    match j
    case Arr(a) => path[0] < |a| && PathOk(a[path[0]], path[1..])
    case Obj(o) => path[0] < |o| && PathOk(o[path[0]].value, path[1..])
    case _ => false
  }

  /** The value with `v` stored at a place. */
  function Set(j: Json, path: Path, v: Json): Json
    decreases |path|
  {
    if path == [] then v
    else match j
      case Arr(a) => if path[0] < |a| then Arr(a[path[0] := Set(a[path[0]], path[1..], v)]) else j
      case Obj(o) =>
        if path[0] < |o| then Obj(o[path[0] := o[path[0]].(value := Set(o[path[0]].value, path[1..], v))]) else j
      case _ => j
  }

  lemma {:induction false} AtSet(j: Json, path: Path, v: Json)
    requires PathOk(j, path)
    ensures At(Set(j, path, v), path) == v && PathOk(Set(j, path, v), path)
    decreases |path|
  {
    if path != [] {
      match j {
        case Arr(a) => AtSet(a[path[0]], path[1..], v);
        case Obj(o) => AtSet(o[path[0]].value, path[1..], v);
        case _ =>
      }
    }
  }

  lemma {:induction false} SetSet(j: Json, path: Path, v: Json, w: Json)
    requires PathOk(j, path)
    ensures Set(Set(j, path, v), path, w) == Set(j, path, w)
    decreases |path|
  {
    if path != [] {
      match j {
        case Arr(a) => SetSet(a[path[0]], path[1..], v, w);
        case Obj(o) => SetSet(o[path[0]].value, path[1..], v, w);
        case _ =>
      }
    }
  }

  /** The container with its element `i` replaced. */
  function WithChild(c: Json, i: nat, v: Json): Json {
    match c
    case Arr(a) => if i < |a| then Arr(a[i := v]) else c
    case Obj(o) => if i < |o| then Obj(o[i := o[i].(value := v)]) else c
    case _ => c
  }

  lemma {:induction false} SetChild(j: Json, path: Path, c: Json, i: nat, v: Json)
    requires PathOk(j, path) && PathOk(c, [i])
    ensures Set(Set(j, path, c), path + [i], v) == Set(j, path, WithChild(c, i, v))
    decreases |path|
  {
    if path == [] {
      assert path + [i] == [i] && [i][1..] == [];
    } else {
      hide WithChild, At;
      assert (path + [i])[1..] == path[1..] + [i];
      match j {
        case Arr(a) => SetChild(a[path[0]], path[1..], c, i, v);
        case Obj(o) => SetChild(o[path[0]].value, path[1..], c, i, v);
        case _ =>
      }
    }
  }

  lemma {:induction false} ChildPathOk(j: Json, path: Path, c: Json, i: nat)
    requires PathOk(j, path) && PathOk(c, [i])
    ensures PathOk(Set(j, path, c), path + [i])
    decreases |path|
  {
    if path == [] {
      assert path + [i] == [i];
    } else {
      assert (path + [i])[1..] == path[1..] + [i];
      match j {
        case Arr(a) => ChildPathOk(a[path[0]], path[1..], c, i);
        case Obj(o) => ChildPathOk(o[path[0]].value, path[1..], c, i);
        case _ =>
      }
    }
  }

  // ----- the parser's state

  /** `state_`; `Wide` ends the model: a length of 2^31 or more. */
  datatype Phase = Normal | Partial | InString | Final | Failed | Wide

  /** Where the next value goes: the key of an object, or an element or member of the container above.
      A string whose bytes are awaited has none. */
  datatype Place = NoPlace | KeyPlace | Child(i: nat)

  /** `selem`: a place, and how many values follow in the container after this one. */
  datatype Elem = Elem(at: Place, size: nat)

  datatype Parser = Parser(phase: Phase, stack: seq<Elem>, str: Bytes, json: Json)

  predicate Done(p: Parser) { p.phase == Final || p.phase == Failed || p.phase == Wide }

  function Last(stack: seq<Elem>): Elem
    requires stack != []
  {
    stack[|stack| - 1]
  }

  function Init(stack: seq<Elem>): seq<Elem>
    requires stack != []
  {
    stack[..|stack| - 1]
  }

  /** The place that the stack points to. */
  function PathOf(stack: seq<Elem>): Path {
    if stack == [] then [] else PathOf(Init(stack)) + [if Last(stack).at.Child? then Last(stack).at.i else 0]
  }

  predicate AtKey(stack: seq<Elem>) { stack != [] && Last(stack).at.KeyPlace? }

  /** What stands at the place of the next value. */
  function Target(p: Parser): Json { At(p.json, PathOf(p.stack)) }

  function Put(p: Parser, v: Json): Parser {
    if AtKey(p.stack) then p else p.(json := Set(p.json, PathOf(p.stack), v))
  }

  // ----- keys

  function Digits(n: nat): Bytes { (if n < 10 then [] else Digits(n / 10)) + [48 + n % 10] }

  /** `to_s` of a key. */
  function ToS(v: Json): Bytes
    requires v.Str? || v.Int? || v.Unsigned?
  {
    match v
    case Str(s) => s
    case Int(i) => if i < 0 then [45] + Digits(-i) else Digits(i)
    case Unsigned(u) => Digits(u)
  }

  function IndexOf(o: seq<Member>, key: Bytes): (i: nat)
    ensures i <= |o| && (i < |o| ==> o[i].key == key)
    ensures forall k :: 0 <= k < i ==> o[k].key != key
  {
    if o == [] || o[0].key == key then 0 else 1 + IndexOf(o[1..], key)
  }

  function MembersOf(j: Json): seq<Member> { if j.Obj? then j.o else [] }

  /** The key's member, a new one behind all others if there is none. */
  function KeyTaken(p: Parser, key: Bytes): Parser
    requires p.stack != []
  {
    var c := PathOf(Init(p.stack));
    var o := MembersOf(At(p.json, c));
    var i := IndexOf(o, key);
    var o' := if i < |o| then o else o + [Member(key, Null)];
    p.(json := Set(p.json, c, Obj(o')), stack := Init(p.stack) + [Elem(Child(i), Last(p.stack).size)])
  }

  // ----- after a value

  /** The stack without the containers that are complete. */
  function Popped(stack: seq<Elem>): (r: seq<Elem>)
    ensures r == [] || Last(r).size > 0
  {
    if stack == [] || Last(stack).size > 0 then stack else Popped(Init(stack))
  }

  /** The place after this one in the container. */
  function Following(jo: Json, at: Place): Place {
    if jo.Arr? && at.Child? then Child(at.i + 1) else KeyPlace
  }

  /** The place of the next value in the container on top. */
  function Onward(p: Parser): Parser
    requires p.stack == [] || Last(p.stack).size > 0
  {
    if p.stack == [] then p.(phase := Final)
    else
      var jo := At(p.json, PathOf(Init(p.stack)));
      p.(stack := Init(p.stack) + [Elem(Following(jo, Last(p.stack).at), Last(p.stack).size - 1)])
  }

  function Advance(p: Parser): Parser { Onward(p.(stack := Popped(p.stack))) }

  /** What follows once the value `v` stands at its place; `n` are its elements or members to come. */
  function Next(p: Parser, v: Json, n: nat): Parser {
    if AtKey(p.stack) then
      if v.Str? || v.Int? || v.Unsigned? then KeyTaken(p, ToS(v)) else p.(phase := Failed)
    else if v.Arr? && n != 0 then p.(stack := p.stack + [Elem(Child(0), n - 1)])
    else if v.Obj? && n != 0 then p.(stack := p.stack + [Elem(KeyPlace, n - 1)])
    else Advance(p)
  }

  function Accept(p: Parser, v: Json, n: nat): Parser { Next(Put(p, v), v, n) }

  /** `resize`. */
  function Resized(j: Json, n: nat): (a: seq<Json>)
    ensures |a| == n
  {
    var was := if j.Arr? then j.a else [];
    if n <= |was| then was[..n] else was + seq(n - |was|, _ => Null)
  }

  /** A whole header has been read. */
  function Header(p: Parser, h: Bytes): Parser
    requires IsHeader(h)
  {
    match Decode(h)
    case Scalar(v) => Accept(p, v, 0)
    case MapOf(n) => if n < LIMIT then Accept(p, Obj([]), n) else p.(phase := Wide)
    case ArrayOf(n) => if n < LIMIT then Accept(p, Arr(Resized(Target(p), n)), n) else p.(phase := Wide)
    case Raw(n) =>
      if n >= LIMIT then p.(phase := Wide)
      else if n == 0 then Accept(p, Str([]), 0)
      else p.(phase := InString, stack := p.stack + [Elem(NoPlace, n)])
  }

  /** The last byte of a string has been read. */
  function StringRead(p: Parser, s: Bytes): Parser
    requires p.stack != []
  {
    Accept(p.(phase := Normal, stack := Init(p.stack), str := []), Str(s), 0)
  }

  // ----- one byte at a time

  function Feed(p: Parser, b: Byte): Parser {
    var s := p.str + [b];
    match p.phase
    case Normal =>
      if HeaderSize(b) == 1 then Header(p, [b]) else p.(phase := Partial, str := [b])
    case Partial =>
      if IsHeader(s) then Header(p.(phase := Normal, str := []), s) else p.(str := s)
    case InString =>
      if p.stack != [] && |s| == Last(p.stack).size then StringRead(p, s) else p.(str := s)
    case _ => p
  }

  /** A byte that starts no value is not taken. */
  predicate Refused(p: Parser, b: Byte) { p.phase == Normal && HeaderSize(b) == 0 }

  /** The run of the machine over `input`, and how many bytes it takes. */
  function Run(p: Parser, input: Bytes): (r: (Parser, nat))
    ensures r.1 <= |input| && (!Done(r.0) ==> r.1 == |input|)
    decreases |input|
  {
    if Done(p) || input == [] then (p, 0)
    else if Refused(p, input[0]) then (p.(phase := Failed), 0)
    else
      var r := Run(Feed(p, input[0]), input[1..]);
      (r.0, r.1 + 1)
  }

  /** The run from `p` on after `n` bytes. */
  function After(p: Parser, n: nat, rest: Bytes): (Parser, nat) {
    var r := Run(p, rest);
    (r.0, n + r.1)
  }

  lemma RunFirst(p: Parser, b: Byte, rest: Bytes)
    requires !Done(p) && !Refused(p, b)
    ensures Run(p, [b] + rest) == After(Feed(p, b), 1, rest)
  {
    hide Feed, Refused;
    assert ([b] + rest)[1..] == rest;
  }

  /** Cutting the input changes nothing. */
  lemma {:induction false} RunJoin(p: Parser, a: Bytes, b: Bytes)
    ensures Run(p, a + b) == var r := Run(p, a); if Done(r.0) then r else After(r.0, r.1, b)
    decreases |a|
  {
    hide Feed, Refused;
    if a == [] {
      assert a + b == b;
    } else if !Done(p) && !Refused(p, a[0]) {
      assert (a + b)[0] == a[0] && (a + b)[1..] == a[1..] + b;
      RunJoin(Feed(p, a[0]), a[1..], b);
    } else {
      assert (a + b)[0] == a[0];
    }
  }

  function Flat(chunks: seq<Bytes>): Bytes {
    if chunks == [] then [] else chunks[0] + Flat(chunks[1..])
  }

  /** Chunk after chunk until the parser is done. */
  function RunChunks(p: Parser, chunks: seq<Bytes>): (Parser, nat)
    decreases |chunks|
  {
    if chunks == [] || Done(p) then (p, 0)
    else
      var r := Run(p, chunks[0]);
      var more := RunChunks(r.0, chunks[1..]);
      (more.0, r.1 + more.1)
  }

  /** The outcome does not depend on how the input is cut into chunks. */
  lemma {:induction false} ChunksDoNotMatter(p: Parser, chunks: seq<Bytes>)
    ensures RunChunks(p, chunks) == Run(p, Flat(chunks))
    decreases |chunks|
  {
    hide Feed, Refused;
    if chunks != [] {
      RunJoin(p, chunks[0], Flat(chunks[1..]));
      ChunksDoNotMatter(Run(p, chunks[0]).0, chunks[1..]);
    }
  }

  // ----- several bytes at once

  predicate AtStart(p: Parser) { p.phase == Normal && p.str == [] }

  /** A header is taken as one. */
  lemma HeaderRuns(p: Parser, h: Bytes, rest: Bytes)
    requires AtStart(p) && IsHeader(h)
    ensures Run(p, h + rest) == After(Header(p, h), |h|, rest)
  {
    hide Header, HeaderSize, Run;
    RunFirst(p, h[0], h[1..] + rest);
    assert h + rest == [h[0]] + (h[1..] + rest);
    if |h| == 1 {
      assert h == [h[0]] && h[1..] + rest == rest;
    } else {
      assert h[..1] == [h[0]];
      PartialRuns(p, h, 1, rest);
    }
  }

  lemma {:induction false} PartialRuns(p: Parser, h: Bytes, k: nat, rest: Bytes)
    requires AtStart(p) && IsHeader(h) && 1 <= k < |h|
    ensures Run(p.(phase := Partial, str := h[..k]), h[k..] + rest) == After(Header(p, h), |h| - k, rest)
    decreases |h| - k
  {
    hide Header, HeaderSize, Run;
    var q := p.(phase := Partial, str := h[..k]);
    assert h[k..] + rest == [h[k]] + (h[k + 1..] + rest) && h[..k] + [h[k]] == h[..k + 1];
    RunFirst(q, h[k], h[k + 1..] + rest);
    if k + 1 == |h| {
      assert h[..k + 1] == h && h[k + 1..] + rest == rest && p.(phase := Normal, str := []) == p;
    } else {
      PartialRuns(p, h, k + 1, rest);
    }
  }

  /** Part of a header is kept. */
  lemma {:induction false} PartialKept(p: Parser, s: Bytes, t: Bytes)
    requires p.phase == Partial && p.str == s && s != [] && |s| + |t| < HeaderSize(s[0])
    ensures Run(p, t) == (p.(str := s + t), |t|)
    decreases |t|
  {
    if t == [] {
      assert s + t == s;
    } else {
      assert t == [t[0]] + t[1..] && s + [t[0]] + t[1..] == s + t;
      RunFirst(p, t[0], t[1..]);
      PartialKept(Feed(p, t[0]), s + [t[0]], t[1..]);
    }
  }

  /** The rest of a string is taken as one. */
  lemma {:induction false} StringRuns(p: Parser, s: Bytes, rest: Bytes)
    requires p.phase == InString && p.stack != [] && s != [] && |p.str| + |s| == Last(p.stack).size
    ensures Run(p, s + rest) == After(StringRead(p, p.str + s), |s|, rest)
    decreases |s|
  {
    assert s + rest == [s[0]] + (s[1..] + rest);
    RunFirst(p, s[0], s[1..] + rest);
    if |s| == 1 {
      assert s == [s[0]] && s[1..] + rest == rest;
    } else {
      var q := p.(str := p.str + [s[0]]);
      assert q.str + s[1..] == p.str + s;
      StringRuns(q, s[1..], rest);
    }
  }

  /** Part of a string is kept. */
  lemma {:induction false} StringKept(p: Parser, s: Bytes)
    requires p.phase == InString && p.stack != [] && |p.str| + |s| < Last(p.stack).size
    ensures Run(p, s) == (p.(str := p.str + s), |s|)
    decreases |s|
  {
    if s == [] {
      assert p.str + s == p.str;
    } else {
      assert s == [s[0]] + s[1..] && p.str + [s[0]] + s[1..] == p.str + s;
      RunFirst(p, s[0], s[1..]);
      StringKept(p.(str := p.str + [s[0]]), s[1..]);
    }
  }

  // ----- the round trip

  /** From `p` the bytes `bs` lead to `q`, whatever comes after them. */
  ghost predicate Reads(p: Parser, bs: Bytes, q: Parser) {
    forall rest: Bytes :: Run(p, bs + rest) == After(q, |bs|, rest)
  }

  lemma ReadsBoth(p: Parser, a: Bytes, q: Parser, b: Bytes, r: Parser)
    requires Reads(p, a, q) && Reads(q, b, r)
    ensures Reads(p, a + b, r)
  {
    hide Run;
    forall rest: Bytes
      ensures Run(p, (a + b) + rest) == After(r, |a + b|, rest)
    {
      assert (a + b) + rest == a + (b + rest);
    }
  }

  lemma HeaderReads(p: Parser, h: Bytes)
    requires AtStart(p) && IsHeader(h)
    ensures Reads(p, h, Header(p, h))
  {
    hide Run, Header, IsHeader;
    forall rest: Bytes
      ensures Run(p, h + rest) == After(Header(p, h), |h|, rest)
    {
      HeaderRuns(p, h, rest);
    }
  }

  lemma RawHeader(p: Parser, h: Bytes, n: nat)
    requires IsHeader(h) && Decode(h) == Raw(n) && n < LIMIT
    ensures Header(p, h) == if n == 0 then Accept(p, Str([]), 0) else p.(phase := InString, stack := p.stack + [Elem(NoPlace, n)])
  {
  }

  lemma StringReadIs(p: Parser, n: nat, s: Bytes)
    requires AtStart(p)
    ensures StringRead(p.(phase := InString, stack := p.stack + [Elem(NoPlace, n)]), s) == Accept(p, Str(s), 0)
  {
    assert Init(p.stack + [Elem(NoPlace, n)]) == p.stack;
    assert p.(phase := Normal, stack := p.stack, str := []) == p;
  }

  lemma StringReads(p: Parser, s: Bytes)
    requires AtStart(p) && s != []
    ensures Reads(p.(phase := InString, stack := p.stack + [Elem(NoPlace, |s|)]), s, Accept(p, Str(s), 0))
  {
    hide Run, Accept, StringRead;
    var q := p.(phase := InString, stack := p.stack + [Elem(NoPlace, |s|)]);
    assert q.str + s == s;
    StringReadIs(p, |s|, s);
    forall rest: Bytes
      ensures Run(q, s + rest) == After(Accept(p, Str(s), 0), |s|, rest)
    {
      StringRuns(q, s, rest);
    }
  }

  /** A whole string, as a value or as a key. */
  lemma WrittenStringReads(p: Parser, s: Bytes)
    requires AtStart(p) && |s| < LIMIT
    ensures Reads(p, WriteString(s), Accept(p, Str(s), 0))
  {
    var h := StringHeader(|s|);
    StringHeaderIsRead(|s|);
    RawHeader(p, h, |s|);
    HeaderReads(p, h);
    hide StringHeader, IsHeader, Decode, Header, Accept, Reads;
    if s == [] {
      assert WriteString(s) == h;
    } else {
      StringReads(p, s);
      ReadsBoth(p, h, p.(phase := InString, stack := p.stack + [Elem(NoPlace, |s|)]), s, Accept(p, Str(s), 0));
    }
  }

  // ----- places in containers

  /** A value is awaited, at a place that exists. */
  predicate Awaits(p: Parser) {
    AtStart(p) && !AtKey(p.stack) && PathOk(p.json, PathOf(p.stack))
  }

  /** A value has been read whole. */
  function Delivered(p: Parser, v: Json): Parser { Advance(Put(p, v)) }

  /** Inside a container at the place of `p`: it holds `c` so far, and `size` values follow the next one. */
  function Within(p: Parser, c: Json, at: Place, size: nat): Parser {
    p.(json := Set(p.json, PathOf(p.stack), c), stack := p.stack + [Elem(at, size)])
  }

  lemma WithinPath(p: Parser, c: Json, at: Place, size: nat)
    ensures
      var q := Within(p, c, at, size);
      && Init(q.stack) == p.stack && q.stack != [] && Last(q.stack) == Elem(at, size)
      && PathOf(q.stack) == PathOf(p.stack) + [if at.Child? then at.i else 0]
  {
  }

  /** Past an element of the container at the place of `p`. */
  lemma AdvancePast(p: Parser, c: Json, at: nat, size: nat)
    requires PathOk(p.json, PathOf(p.stack)) && (c.Arr? || c.Obj?) && size > 0
    ensures Advance(Within(p, c, Child(at), size)) == Within(p, c, if c.Arr? then Child(at + 1) else KeyPlace, size - 1)
  {
    WithinPath(p, c, Child(at), size);
    AtSet(p.json, PathOf(p.stack), c);
    var q := Within(p, c, Child(at), size);
    assert Popped(q.stack) == q.stack && q.(stack := q.stack) == q;
    hide Set, At, PathOk, PathOf, Popped;
    assert Following(c, Child(at)) == if c.Arr? then Child(at + 1) else KeyPlace;
  }

  /** Out of a container that is complete. */
  lemma AdvanceOut(p: Parser, c: Json, at: nat)
    requires c.Arr? || c.Obj?
    ensures Advance(Within(p, c, Child(at), 0)) == Advance(p.(json := Set(p.json, PathOf(p.stack), c)))
  {
    WithinPath(p, c, Child(at), 0);
    var q, r := Within(p, c, Child(at), 0), p.(json := Set(p.json, PathOf(p.stack), c));
    assert Popped(q.stack) == Popped(p.stack);
    hide Set, At, PathOf, Popped, Onward;
    assert q.(stack := Popped(p.stack)) == r.(stack := Popped(p.stack));
  }

  /** A value stored in the container at the place of `p`. */
  lemma PutWithin(p: Parser, c: Json, at: nat, size: nat, v: Json)
    requires Awaits(p) && PathOk(c, [at])
    ensures
      var q := Within(p, c, Child(at), size);
      Awaits(q) && Put(q, v) == Within(p, WithChild(c, at, v), Child(at), size)
  {
    WithinPath(p, c, Child(at), size);
    SetChild(p.json, PathOf(p.stack), c, at, v);
    ChildPathOk(p.json, PathOf(p.stack), c, at);
    hide Set, At, PathOk, PathOf, WithChild;
  }

  lemma ChildPath(c: Json, i: nat)
    requires (c.Arr? && i < |c.a|) || (c.Obj? && i < |c.o|)
    ensures PathOk(c, [i])
  {
    assert [i][1..] == [];
  }

  /** A value inside a container has been read: on to the next place, or out of the container. */
  lemma ChildDelivered(p: Parser, c: Json, i: nat, size: nat, v: Json)
    requires Awaits(p) && ((c.Arr? && i < |c.a|) || (c.Obj? && i < |c.o|))
    ensures
      var q, done := Within(p, c, Child(i), size), WithChild(c, i, v);
      && Awaits(q)
      && Delivered(q, v) == if size > 0 then Within(p, done, if c.Arr? then Child(i + 1) else KeyPlace, size - 1) else Delivered(p, done)
  {
    var done := WithChild(c, i, v);
    ChildPath(c, i);
    PutWithin(p, c, i, size, v);
    assert done.Arr? == c.Arr? && done.Obj? == c.Obj? && PathOk(p.json, PathOf(p.stack)) && !AtKey(p.stack);
    hide Set, At, PathOk, PathOf, Within, Advance, WithChild, Awaits;
    if size > 0 {
      AdvancePast(p, done, i, size);
    } else {
      AdvanceOut(p, done, i);
    }
  }

  lemma IndexOfNew(o: seq<Member>, key: Bytes)
    requires forall k :: 0 <= k < |o| ==> o[k].key != key
    ensures IndexOf(o, key) == |o|
  {
  }

  /** A new key in the object at the place of `p`. */
  lemma KeyReads(p: Parser, cur: seq<Member>, size: nat, key: Bytes)
    requires Awaits(p) && |key| < LIMIT && forall k :: 0 <= k < |cur| ==> cur[k].key != key
    ensures
      Reads(Within(p, Obj(cur), KeyPlace, size), WriteString(key), Within(p, Obj(cur + [Member(key, Null)]), Child(|cur|), size))
  {
    var q, path := Within(p, Obj(cur), KeyPlace, size), PathOf(p.stack);
    WrittenStringReads(q, key);
    WithinPath(p, Obj(cur), KeyPlace, size);
    IndexOfNew(cur, key);
    AtSet(p.json, path, Obj(cur));
    SetSet(p.json, path, Obj(cur), Obj(cur + [Member(key, Null)]));
    hide Set, At, PathOk, PathOf, IndexOf, Reads, WriteString;
    assert KeyTaken(q, key) == Within(p, Obj(cur + [Member(key, Null)]), Child(|cur|), size);
  }

  // ----- values

  lemma FixIsRead(b: Byte)
    requires b == FNULL || IsBool(b)
    ensures IsHeader([b]) && Decode([b]) == Scalar(if b == FNULL then Null else Bool(b != FFALSE))
  {
  }

  lemma DoubleIsRead(bits: Bytes)
    requires |bits| == 8
    ensures IsHeader([FFLOAT64] + bits) && Decode([FFLOAT64] + bits) == Scalar(Double(bits))
  {
    TailIs(FFLOAT64, bits);
  }

  lemma AcceptIs(p: Parser, v: Json)
    requires Awaits(p) && !v.Arr? && !v.Obj?
    ensures AtStart(p) && Accept(p, v, 0) == Delivered(p, v)
  {
    hide PathOk, PathOf, Set, Advance;
  }

  lemma ScalarReads(p: Parser, h: Bytes, v: Json)
    requires Awaits(p) && IsHeader(h) && Decode(h) == Scalar(v) && !v.Arr? && !v.Obj?
    ensures Reads(p, h, Delivered(p, v))
  {
    AcceptIs(p, v);
    HeaderReads(p, h);
    hide Reads, IsHeader, Awaits, Delivered, Accept;
  }

  lemma ArrayBegins(p: Parser, h: Bytes, n: nat)
    requires Awaits(p) && IsHeader(h) && Decode(h) == ArrayOf(n) && n < LIMIT
    ensures Header(p, h) == if n == 0 then Delivered(p, Arr([])) else Within(p, Arr(Resized(Target(p), n)), Child(0), n - 1)
  {
    hide IsHeader, Decode, HeaderSize, Set, At, PathOk, PathOf, Advance;
    assert n == 0 ==> Resized(Target(p), n) == [];
  }

  lemma MapBegins(p: Parser, h: Bytes, n: nat)
    requires Awaits(p) && IsHeader(h) && Decode(h) == MapOf(n) && n < LIMIT
    ensures Header(p, h) == if n == 0 then Delivered(p, Obj([])) else Within(p, Obj([]), KeyPlace, n - 1)
  {
    hide IsHeader, Decode, HeaderSize, Set, At, PathOk, PathOf, Advance;
  }

  lemma ArrayHeaderReads(p: Parser, n: nat)
    requires Awaits(p) && n < LIMIT
    ensures Reads(p, ArrayHeader(n), if n == 0 then Delivered(p, Arr([])) else Within(p, Arr(Resized(Target(p), n)), Child(0), n - 1))
  {
    ArrayHeaderIsRead(n);
    ArrayBegins(p, ArrayHeader(n), n);
    hide Reads, ArrayHeader, IsHeader, Decode, Header, Within, Delivered, Resized, PathOk, PathOf;
    HeaderReads(p, ArrayHeader(n));
  }

  lemma MapHeaderReads(p: Parser, n: nat)
    requires Awaits(p) && n < LIMIT
    ensures Reads(p, MapHeader(n), if n == 0 then Delivered(p, Obj([])) else Within(p, Obj([]), KeyPlace, n - 1))
  {
    MapHeaderIsRead(n);
    MapBegins(p, MapHeader(n), n);
    hide Reads, MapHeader, IsHeader, Decode, Header, Within, Delivered, PathOk, PathOf;
    HeaderReads(p, MapHeader(n));
  }

  /** Elements up to `i` are in place. */
  predicate Placed(cur: seq<Json>, all: seq<Json>, i: nat) {
    |cur| == |all| && i <= |all| && forall k :: 0 <= k < i ==> cur[k] == all[k]
  }

  lemma PlacedNext(cur: seq<Json>, all: seq<Json>, i: nat)
    requires Placed(cur, all, i) && i < |all|
    ensures Placed(cur[i := all[i]], all, i + 1) && (i + 1 == |all| ==> cur[i := all[i]] == all)
  {
  }

  lemma AllFrom(a: seq<Json>, i: nat)
    requires AllEncodable(a) && i < |a|
    ensures EncodedAll(a[i..]) == Encoded(a[i]) + EncodedAll(a[i + 1..]) && (i + 1 == |a| ==> EncodedAll(a[i..]) == Encoded(a[i]))
  {
    assert a[i..][1..] == a[i + 1..];
  }

  lemma MembersFrom(o: seq<Member>, i: nat)
    requires MembersEncodable(o) && i < |o|
    ensures EncodedMembers(o[i..]) == WriteString(o[i].key) + Encoded(o[i].value) + EncodedMembers(o[i + 1..])
    ensures i + 1 == |o| ==> EncodedMembers(o[i..]) == WriteString(o[i].key) + Encoded(o[i].value)
  {
    hide WriteString, Encoded;
    assert o[i..][1..] == o[i + 1..];
  }

  /** The object's members before `i` are in place. */
  function Begun(o: seq<Member>, i: nat): seq<Member>
    requires i <= |o|
  {
    ReadBackMembers(o)[..i]
  }

  lemma BegunNext(o: seq<Member>, i: nat)
    requires i < |o|
    ensures
      var c := Begun(o, i) + [Member(o[i].key, Null)];
      |c| == i + 1 && WithChild(Obj(c), i, ReadBack(o[i].value)) == Obj(Begun(o, i + 1))
    ensures i + 1 == |o| ==> Begun(o, i + 1) == ReadBackMembers(o)
    ensures KeysDiffer(o) ==> forall k :: 0 <= k < i ==> Begun(o, i)[k].key != o[i].key
  {
    hide ReadBack;
    var all := ReadBackMembers(o);
    assert i + 1 == |o| ==> all[..i + 1] == all;
    assert all[..i + 1] == all[..i] + [Member(o[i].key, ReadBack(o[i].value))];
  }

  /** The encoding of a value is read as that value, whatever follows and wherever it belongs. */
  lemma {:induction false} ValueReads(p: Parser, j: Json)
    requires Awaits(p) && Encodable(j)
    ensures Reads(p, Encoded(j), Delivered(p, ReadBack(j)))
    decreases j, 2
  {
    hide Reads, Delivered, Awaits, Decode, IsHeader, WriteSigned, WriteUnsigned, WriteString, ArrayHeader, MapHeader;
    hide EncodedAll, EncodedMembers, ReadBackAll, ReadBackMembers, AllEncodable, MembersEncodable, Accept;
    match j {
      case Null =>
        FixIsRead(FNULL);
        ScalarReads(p, [FNULL], Null);
      case Bool(b) =>
        FixIsRead(if b then FFALSE + 1 else FFALSE);
        ScalarReads(p, [if b then FFALSE + 1 else FFALSE], j);
      case Int(i) =>
        SignedIsRead(i);
        ScalarReads(p, WriteSigned(i), j);
      case Unsigned(u) =>
        UnsignedIsRead(u);
        ScalarReads(p, WriteUnsigned(u), ReadBack(j));
      case Double(bits) =>
        DoubleIsRead(bits);
        ScalarReads(p, [FFLOAT64] + bits, j);
      case Str(s) =>
        AcceptIs(p, j);
        WrittenStringReads(p, s);
      case Arr(a) => ArrayReads(p, a);
      case Obj(o) => ObjectReads(p, o);
    }
  }

  lemma {:induction false} ArrayReads(p: Parser, a: seq<Json>)
    requires Awaits(p) && |a| < LIMIT && AllEncodable(a)
    ensures Reads(p, ArrayHeader(|a|) + EncodedAll(a), Delivered(p, Arr(ReadBackAll(a))))
    decreases a, 1
  {
    ArrayHeaderReads(p, |a|);
    hide Reads, Delivered, Awaits, ArrayHeader, Within, Resized, AllEncodable;
    if a == [] {
      assert ArrayHeader(|a|) + EncodedAll(a) == ArrayHeader(|a|);
    } else {
      hide EncodedAll, ReadBackAll;
      assert a[0..] == a;
      var cur := Resized(Target(p), |a|);
      ElementsRead(p, a, cur, 0);
      ReadsBoth(p, ArrayHeader(|a|), Within(p, Arr(cur), Child(0), |a| - 1), EncodedAll(a), Delivered(p, Arr(ReadBackAll(a))));
    }
  }

  /** Elements `i` and later; the earlier ones are in place. */
  lemma {:induction false} ElementsRead(p: Parser, a: seq<Json>, cur: seq<Json>, i: nat)
    requires Awaits(p) && AllEncodable(a) && i < |a| && Placed(cur, ReadBackAll(a), i)
    ensures Reads(Within(p, Arr(cur), Child(i), |a| - 1 - i), EncodedAll(a[i..]), Delivered(p, Arr(ReadBackAll(a))))
    decreases a, 0, |a| - i
  {
    hide Reads, Delivered, Awaits, Encoded, ReadBack, EncodedAll, Within, Encodable;
    var all, size := ReadBackAll(a), |a| - 1 - i;
    var v := ReadBack(a[i]);
    var q, done := Within(p, Arr(cur), Child(i), size), cur[i := v];
    assert all[i] == v && Encodable(a[i]);
    hide ReadBackAll, AllEncodable;
    PlacedNext(cur, all, i);
    AllFrom(a, i);
    ChildDelivered(p, Arr(cur), i, size, v);
    ValueReads(q, a[i]);
    hide Placed;
    if i + 1 < |a| {
      ElementsRead(p, a, done, i + 1);
      ReadsBoth(q, Encoded(a[i]), Within(p, Arr(done), Child(i + 1), size - 1), EncodedAll(a[i + 1..]), Delivered(p, Arr(all)));
    }
  }

  lemma {:induction false} ObjectReads(p: Parser, o: seq<Member>)
    requires Awaits(p) && |o| < LIMIT && KeysDiffer(o) && MembersEncodable(o)
    ensures Reads(p, MapHeader(|o|) + EncodedMembers(o), Delivered(p, Obj(ReadBackMembers(o))))
    decreases o, 2
  {
    MapHeaderReads(p, |o|);
    hide Reads, Delivered, Awaits, MapHeader, Within, KeysDiffer, MembersEncodable;
    if o == [] {
      assert MapHeader(|o|) + EncodedMembers(o) == MapHeader(|o|);
    } else {
      assert o[0..] == o && Begun(o, 0) == [];
      hide EncodedMembers, ReadBackMembers, Begun;
      MembersRead(p, o, 0);
      ReadsBoth(p, MapHeader(|o|), Within(p, Obj([]), KeyPlace, |o| - 1), EncodedMembers(o), Delivered(p, Obj(ReadBackMembers(o))));
    }
  }

  /** At the key of member `i`, or past the object. */
  function AtMember(p: Parser, o: seq<Member>, i: nat): Parser
    requires i <= |o|
  {
    if i < |o| then Within(p, Obj(Begun(o, i)), KeyPlace, |o| - 1 - i) else Delivered(p, Obj(ReadBackMembers(o)))
  }

  lemma {:induction false} MemberReads(p: Parser, o: seq<Member>, i: nat)
    requires Awaits(p) && MembersEncodable(o) && KeysDiffer(o) && i < |o|
    ensures Reads(AtMember(p, o, i), WriteString(o[i].key) + Encoded(o[i].value), AtMember(p, o, i + 1))
    decreases o, 0
  {
    hide Reads, Delivered, Awaits, Encoded, ReadBack, Within, Encodable, WriteString, Begun, KeysDiffer;
    var size, key, v := |o| - 1 - i, o[i].key, o[i].value;
    assert |key| < LIMIT && Encodable(v);
    BegunNext(o, i);
    hide MembersEncodable, ReadBackMembers;
    var c := Begun(o, i) + [Member(key, Null)];
    var r := Within(p, Obj(c), Child(i), size);
    KeyReads(p, Begun(o, i), size, key);
    ChildDelivered(p, Obj(c), i, size, ReadBack(v));
    ValueReads(r, v);
    hide WithChild;
    ReadsBoth(AtMember(p, o, i), WriteString(key), r, Encoded(v), AtMember(p, o, i + 1));
  }

  /** Members `i` and later; the earlier ones are in place. */
  lemma {:induction false} MembersRead(p: Parser, o: seq<Member>, i: nat)
    requires Awaits(p) && MembersEncodable(o) && KeysDiffer(o) && i < |o|
    ensures Reads(AtMember(p, o, i), EncodedMembers(o[i..]), AtMember(p, o, |o|))
    decreases o, 1, |o| - i
  {
    MembersFrom(o, i);
    hide Reads, Awaits, Encoded, EncodedMembers, WriteString, MembersEncodable, KeysDiffer, AtMember;
    MemberReads(p, o, i);
    if i + 1 < |o| {
      MembersRead(p, o, i + 1);
      ReadsBoth(AtMember(p, o, i), WriteString(o[i].key) + Encoded(o[i].value), AtMember(p, o, i + 1), EncodedMembers(o[i + 1..]), AtMember(p, o, |o|));
    }
  }

  lemma DoneRuns(p: Parser, rest: Bytes)
    requires Done(p)
    ensures Run(p, rest) == (p, 0)
  {
  }

  lemma DeliveredAtTop(v: Json, was: Json)
    ensures
      var p := Parser(Normal, [], [], was);
      Awaits(p) && Delivered(p, v) == Parser(Final, [], [], v)
  {
  }

  /** The round trip: a parser at its start reads exactly the encoding, whatever follows, and gets an equal value. */
  lemma RoundTrip(j: Json, was: Json, rest: Bytes)
    requires Encodable(j)
    ensures Run(Parser(Normal, [], [], was), Encoded(j) + rest) == (Parser(Final, [], [], ReadBack(j)), |Encoded(j)|)
    ensures Equal(j, ReadBack(j))
  {
    hide Run, Delivered, Awaits, Encoded, Encodable, ReadBack, Equal;
    var p := Parser(Normal, [], [], was);
    DeliveredAtTop(ReadBack(j), was);
    ReadBackIsEqual(j);
    ValueReads(p, j);
    DoneRuns(Delivered(p, ReadBack(j)), rest);
  }

  // ----- keys of any kind, and bytes that are refused

  /** The number that a string of decimal digits denotes. */
  function Decimal(s: Bytes): int {
    if s == [] then 0 else 10 * Decimal(s[..|s| - 1]) + s[|s| - 1] as int - 48
  }

  lemma {:induction false} DigitsDenote(n: nat)
    ensures
      var s := Digits(n);
      && s != [] && (forall i :: 0 <= i < |s| ==> 48 <= s[i] <= 57)
      && Decimal(s) == n && (s[0] == 48 ==> s == [48])
  {
    var s := Digits(n);
    assert s[..|s| - 1] == if n < 10 then [] else Digits(n / 10);
    if n >= 10 {
      DigitsDenote(n / 10);
    }
  }

  /** A number as a key is its decimal string: digits without a needless zero, behind a minus sign (byte 45) if it is
      negative. */
  lemma NumberKeyIs(v: Json)
    requires v.Int? || v.Unsigned?
    ensures
      var n, s := if v.Int? then v.i else v.u, ToS(v);
      var t := if n < 0 then s[if s == [] then 0 else 1..] else s;
      && s != [] && (n < 0 ==> s[0] == 45)
      && t != [] && (forall i :: 0 <= i < |t| ==> 48 <= t[i] <= 57) && (t[0] == 48 ==> t == [48])
      && Decimal(t) == if n < 0 then -n else n
  {
    var n := if v.Int? then v.i else v.u;
    DigitsDenote(if n < 0 then -n else n);
    if n < 0 {
      assert ToS(v)[1..] == Digits(-n);
    }
  }

  /** `after` is `o` with `v` under `key`: in its place if the key is there, else behind all others. */
  ghost predicate Stored(o: seq<Member>, key: Bytes, v: Json, after: seq<Member>) {
    if exists i :: 0 <= i < |o| && o[i].key == key then
      && |after| == |o|
      && exists i :: 0 <= i < |o| && o[i].key == key && (forall k :: 0 <= k < i ==> o[k].key != key) && after == o[i := Member(key, v)]
    else
      after == o + [Member(key, v)]
  }

  /** What the bytes of a key stand for. */
  ghost predicate KeyBytes(bytes: Bytes, key: Bytes) {
    || (|key| < LIMIT && bytes == WriteString(key))
    || (IsHeader(bytes) && exists v: Json :: (v.Int? || v.Unsigned?) && Decode(bytes) == Scalar(v) && ToS(v) == key)
  }

  lemma KeyBytesRead(p: Parser, bytes: Bytes, key: Bytes)
    requires AtStart(p) && AtKey(p.stack) && KeyBytes(bytes, key)
    ensures Reads(p, bytes, KeyTaken(p, key))
  {
    hide Reads, KeyTaken, Decode, HeaderSize, WriteString, Digits;
    if |key| < LIMIT && bytes == WriteString(key) {
      WrittenStringReads(p, key);
    } else {
      HeaderReads(p, bytes);
    }
  }

  lemma WhereStored(o: seq<Member>, key: Bytes, v: Json)
    ensures
      var i := IndexOf(o, key);
      var c := if i < |o| then o else o + [Member(key, Null)];
      Stored(o, key, v, c[i := Member(key, v)])
  {
    var i := IndexOf(o, key);
    if i == |o| {
      assert (o + [Member(key, Null)])[i := Member(key, v)] == o + [Member(key, v)];
    }
  }

  lemma KeyGoesTo(p: Parser, cur: seq<Member>, size: nat, key: Bytes)
    requires Awaits(p)
    ensures
      var i := IndexOf(cur, key);
      KeyTaken(Within(p, Obj(cur), KeyPlace, size), key) ==
        Within(p, Obj(if i < |cur| then cur else cur + [Member(key, Null)]), Child(i), size)
  {
    var path, i := PathOf(p.stack), IndexOf(cur, key);
    var cur' := if i < |cur| then cur else cur + [Member(key, Null)];
    WithinPath(p, Obj(cur), KeyPlace, size);
    AtSet(p.json, path, Obj(cur));
    SetSet(p.json, path, Obj(cur), Obj(cur'));
    hide Set, At, PathOk, PathOf, IndexOf;
  }

  /** A member of an object, its key a string or a number, and whether or not the key is there already: the object
      holds the value under the key, and its other members are as before. */
  lemma MemberIsStored(p: Parser, cur: seq<Member>, size: nat, bytes: Bytes, key: Bytes, v: Json) returns (after: seq<Member>)
    requires Awaits(p) && KeyBytes(bytes, key) && Encodable(v)
    ensures Stored(cur, key, ReadBack(v), after)
    ensures
      Reads(Within(p, Obj(cur), KeyPlace, size), bytes + Encoded(v),
            if size > 0 then Within(p, Obj(after), KeyPlace, size - 1) else Delivered(p, Obj(after)))
  {
    hide Reads, Delivered, Awaits, Encoded, ReadBack, Encodable, KeyBytes, KeyTaken, IndexOf;
    var i := IndexOf(cur, key);
    var c := if i < |cur| then cur else cur + [Member(key, Null)];
    after := c[i := Member(key, ReadBack(v))];
    WhereStored(cur, key, ReadBack(v));
    var start, q := Within(p, Obj(cur), KeyPlace, size), Within(p, Obj(c), Child(i), size);
    WithinStarts(p, Obj(cur), KeyPlace, size);
    KeyBytesRead(start, bytes, key);
    KeyGoesTo(p, cur, size, key);
    ChildDelivered(p, Obj(c), i, size, ReadBack(v));
    ValueReads(q, v);
    KeyKept(c, i, key, ReadBack(v));
    hide Within, Stored, WithChild;
    ReadsBoth(start, bytes, q, Encoded(v), Delivered(q, ReadBack(v)));
  }

  lemma WithinStarts(p: Parser, c: Json, at: Place, size: nat)
    requires Awaits(p)
    ensures AtStart(Within(p, c, at, size)) && (at.KeyPlace? ==> AtKey(Within(p, c, at, size).stack))
  {
  }

  lemma KeyKept(c: seq<Member>, i: nat, key: Bytes, v: Json)
    requires i < |c| && c[i].key == key
    ensures WithChild(Obj(c), i, v) == Obj(c[i := Member(key, v)])
  {
  }

  /** Any other key is an error. */
  lemma OtherKeysFail(p: Parser, h: Bytes)
    requires AtStart(p) && AtKey(p.stack) && IsHeader(h)
    requires
      var d := Decode(h);
      (d.Scalar? && !d.v.Str? && !d.v.Int? && !d.v.Unsigned?) || (d.ArrayOf? && d.n < LIMIT) || (d.MapOf? && d.n < LIMIT)
    ensures Header(p, h).phase == Failed
  {
    hide Decode, HeaderSize, Set, At, PathOf, Resized;
  }

  /** The byte that is never used and the extension types are refused where a value starts, and not taken. */
  lemma RefusedOnTheWire(p: Parser, b: Byte, rest: Bytes)
    requires AtStart(p) && (b == 0xC1 || 0xC7 <= b <= 0xC9 || 0xD4 <= b <= 0xD8)
    ensures Run(p, [b] + rest) == (p.(phase := Failed), 0)
  {
    HeaderSizeIs(b);
    hide HeaderSize;
  }

  /** A length that the code's 32-bit `int` does not hold ends the account; no other does. */
  lemma WideLengths(p: Parser, h: Bytes)
    requires AtStart(p) && IsHeader(h) && !Decode(h).Scalar?
    ensures Header(p, h).phase == Wide <==> Decode(h).n >= 0x8000_0000
  {
    hide Decode, HeaderSize, Set, At, PathOf, Resized;
  }
}
