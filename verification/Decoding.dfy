/**
 * Decoding a function body: the offsets of ends and elses are written into the instructions that opened them once they
 * are known. What comes out is the structured code, flattened.
 */
module Decoding {
  import opened Words
  import W = Wasm
  import opened Structured

  /** What the parser reads: instructions, and the marks of nested code. */
  datatype Token =
    | Plain(op: W.Op)
    | OpenBlock(params: nat, results: nat)
    | OpenLoop(params: nat, results: nat)
    | OpenIf(params: nat, results: nat)
    | ElseMark
    | EndMark

  function Tokens(i: Instr): seq<Token> {
    match i
    case Do(op) => [Plain(op)]
    case Block(body, params, results) => [OpenBlock(params, results)] + TokensAll(body) + [EndMark]
    case Loop(body, params, results) => [OpenLoop(params, results)] + TokensAll(body) + [EndMark]
    case If(yes, params, results) => [OpenIf(params, results)] + TokensAll(yes) + [EndMark]
    case IfElse(yes, no, params, results) =>
      [OpenIf(params, results)] + TokensAll(yes) + [ElseMark] + TokensAll(no) + [EndMark]
    case Br(depth) => [Plain(W.Op.Br(depth))]
    case BrIf(depth) => [Plain(W.Op.BrIf(depth))]
    case Return => [Plain(W.Op.Return)]
  }

  function TokensAll(code: Code): seq<Token> {
    match code
    case Done => []
    case Then(i, rest) => Tokens(i) + TokensAll(rest)
  }

  // ----- one token -----

  /** The code so far, and the offsets of the instructions whose ends are to come. */
  datatype State = State(code: seq<W.Op>, open: seq<nat>)

  /** The label opened at `at` ends at `end`, and so does its else. */
  function Closed(code: seq<W.Op>, at: nat, end: nat): seq<W.Op>
    requires at < |code|
  {
    match code[at]
    case Block(_, params, arity) => code[at := W.Op.Block(end, params, arity)]
    case If(mid, _, params, arity) =>
      var ended := code[at := W.Op.If(mid, end, params, arity)];
      if 0 < mid < |ended| && ended[mid].Else? then ended[mid := W.Else(end)] else ended
    case _ => code
  }

  ghost predicate OkState(d: State) {
    forall i :: 0 <= i < |d.open| ==> d.open[i] < |d.code|
  }

  /** `None`: an else outside every label. */
  function Feed(d: State, t: Token): (r: Option<State>)
    requires OkState(d)
    ensures r.Some? ==> OkState(r.value)
  {
    var at := |d.code|;
    match t
    case Plain(op) => Some(State(d.code + [op], d.open))
    case OpenBlock(params, results) => Some(State(d.code + [W.Op.Block(0, params, results)], d.open + [at]))
    case OpenLoop(params, _) => Some(State(d.code + [W.Op.Loop(params)], d.open + [at]))
    case OpenIf(params, results) => Some(State(d.code + [W.Op.If(0, 0, params, results)], d.open + [at]))
    case ElseMark =>
      if d.open == [] then None
      else
        var top := d.open[|d.open| - 1];
        var code := match d.code[top]
          case If(_, end, params, arity) => d.code[top := W.Op.If(at, end, params, arity)]
          case _ => d.code;
        Some(State(code + [W.Else(0)], d.open))
    case EndMark =>
      if d.open == [] then Some(State(d.code + [W.End], []))
      else Some(State(Closed(d.code, d.open[|d.open| - 1], at) + [W.End], d.open[..|d.open| - 1]))
  }

  function FeedAll(d: State, ts: seq<Token>): (r: Option<State>)
    requires OkState(d)
    ensures r.Some? ==> OkState(r.value)
  {
    if ts == [] then Some(d)
    else match FeedAll(d, ts[..|ts| - 1])
      case Some(next) => Feed(next, ts[|ts| - 1])
      case None => None
  }

  /** `decode_body`. */
  method Decode(ts: seq<Token>) returns (code: Option<seq<W.Op>>)
    ensures code == match FeedAll(State([], []), ts) case Some(d) => Some(d.code) case None => None
    ensures forall f: Func :: ts == TokensAll(f.body) + [EndMark] ==> code == Some(Flatten(f))
  {
    hide Flatten, TokensAll;
    var ops: seq<W.Op> := [];
    var open: seq<nat> := [];
    for i := 0 to |ts|
      invariant OkState(State(ops, open)) && FeedAll(State([], []), ts[..i]) == Some(State(ops, open))
    {
      assert ts[..i + 1][..i] == ts[..i];
      var at := |ops|;
      match ts[i] {
        case Plain(op) => ops := ops + [op];
        case OpenBlock(params, results) =>
          open := open + [at];
          ops := ops + [W.Op.Block(0, params, results)];
        case OpenLoop(params, _) =>
          open := open + [at];
          ops := ops + [W.Op.Loop(params)];
        case OpenIf(params, results) =>
          open := open + [at];
          ops := ops + [W.Op.If(0, 0, params, results)];
        case ElseMark =>
          if open == [] {
            FeedStops(State([], []), ts, i);
            NeverStops(ts);
            return None;
          }
          var top := open[|open| - 1];
          if ops[top].If? {
            ops := ops[top := ops[top].(elsePc := at)];
          }
          ops := ops + [W.Else(0)];
        case EndMark =>
          if open != [] {
            ops := Closed(ops, open[|open| - 1], at);
            open := open[..|open| - 1];
          }
          ops := ops + [W.End];
      }
    }
    assert ts[..|ts|] == ts;
    NeverStops(ts);
    code := Some(ops);
  }

  /** What cannot be read further on cannot be read. */
  lemma {:induction false} FeedStops(d: State, ts: seq<Token>, i: nat)
    requires OkState(d) && i < |ts| && FeedAll(d, ts[..i + 1]).None?
    ensures FeedAll(d, ts).None?
    decreases |ts|
  {
    if i + 1 < |ts| {
      assert ts[..|ts| - 1][..i + 1] == ts[..i + 1];
      FeedStops(d, ts[..|ts| - 1], i);
    } else {
      assert ts[..i + 1] == ts;
    }
  }

  lemma {:induction false} FeedBoth(d: State, a: seq<Token>, b: seq<Token>)
    requires OkState(d)
    ensures FeedAll(d, a + b) == match FeedAll(d, a) case Some(next) => FeedAll(next, b) case None => None
    decreases |b|
  {
    if b == [] {
      assert a + b == a;
    } else {
      assert (a + b)[..|a + b| - 1] == a + b[..|b| - 1];
      FeedBoth(d, a, b[..|b| - 1]);
    }
  }

  lemma FeedOne(d: State, t: Token)
    requires OkState(d)
    ensures FeedAll(d, [t]) == Feed(d, t)
  {
    assert [t][..0] == [];
  }

  // ----- nested code -----

  lemma Replaces(code: seq<W.Op>, x: W.Op, rest: seq<W.Op>, y: W.Op)
    ensures (code + [x] + rest)[|code| := y] == code + [y] + rest
    ensures (code + [x] + rest)[|code|] == x
  {
  }

  lemma Follow<T>(a: seq<T>, b: seq<T>, c: seq<T>)
    ensures a + b + c == a + (b + c)
  {
  }

  /** An instruction with an end to come, before that and after. */
  predicate Ends(x: W.Op, end: nat, y: W.Op) {
    match x
    case Block(_, params, arity) => y == W.Op.Block(end, params, arity)
    case If(mid, _, params, arity) => mid == 0 && y == W.Op.If(0, end, params, arity)
    case _ => x.Loop? && y == x
  }

  lemma ClosesLabel(before: seq<W.Op>, x: W.Op, body: seq<W.Op>, end: nat, y: W.Op)
    requires Ends(x, end, y)
    ensures Closed(before + [x] + body, |before|, end) + [W.End] == before + ([y] + body + [W.End])
  {
    Replaces(before, x, body, y);
    Replaces(before, x, body, x);
    assert before + [y] + body + [W.End] == before + ([y] + body + [W.End]);
  }

  /** Reading structured code appends it, flattened where it stands. */
  lemma {:induction false} ReadsAll(d: State, code: Code)
    requires OkState(d)
    ensures FeedAll(d, TokensAll(code)) == Some(State(d.code + FlatAll(code, |d.code|), d.open))
    decreases code, 2
  {
    if code.Then? {
      ReadsThen(d, code.head, code.rest);
    } else {
      assert d.code + [] == d.code;
    }
  }

  lemma {:induction false} ReadsThen(d: State, i: Instr, rest: Code)
    requires OkState(d)
    ensures FeedAll(d, TokensAll(Then(i, rest)))
         == Some(State(d.code + FlatAll(Then(i, rest), |d.code|), d.open))
    decreases Then(i, rest), 1
  {
    hide *;
    var (at, ops) := (|d.code|, Flat(i, |d.code|));
    ThenParts(i, rest, at);
    Reads(d, i);
    var next := State(d.code + ops, d.open);
    FeedBoth(d, Tokens(i), TokensAll(rest));
    ReadsAll(next, rest);
    Follow(d.code, ops, FlatAll(rest, at + Size(i)));
  }

  lemma ThenParts(i: Instr, rest: Code, at: nat)
    ensures TokensAll(Then(i, rest)) == Tokens(i) + TokensAll(rest)
    ensures FlatAll(Then(i, rest), at) == Flat(i, at) + FlatAll(rest, at + Size(i))
  {
  }

  lemma {:induction false} Reads(d: State, i: Instr)
    requires OkState(d)
    ensures FeedAll(d, Tokens(i)) == Some(State(d.code + Flat(i, |d.code|), d.open))
    decreases i, 1
  {
    hide FeedAll, FlatAll, TokensAll;
    match i {
      case Block(body, params, results) =>
        var end := |d.code| + 1 + Length(body);
        ReadsLabel(d, OpenBlock(params, results), body, W.Op.Block(0, params, results),
          W.Op.Block(end, params, results));
      case Loop(body, params, results) =>
        ReadsLabel(d, OpenLoop(params, results), body, W.Op.Loop(params), W.Op.Loop(params));
      case If(yes, params, results) =>
        var end := |d.code| + 1 + Length(yes);
        ReadsLabel(d, OpenIf(params, results), yes, W.Op.If(0, 0, params, results),
          W.Op.If(0, end, params, results));
      case IfElse(_, _, _, _) => ReadsArms(d, i);
      case _ => FeedOne(d, Tokens(i)[0]);
    }
  }

  /** A label with one code. */
  lemma {:induction false} ReadsLabel(d: State, first: Token, body: Code, x: W.Op, y: W.Op)
    requires OkState(d) && Feed(d, first) == Some(State(d.code + [x], d.open + [|d.code|]))
    requires Ends(x, |d.code| + 1 + Length(body), y)
    ensures var at := |d.code|;
      FeedAll(d, [first] + TokensAll(body) + [EndMark])
        == Some(State(d.code + ([y] + FlatAll(body, at + 1) + [W.End]), d.open))
    decreases body, 3
  {
    hide FeedAll, FlatAll, TokensAll, Closed, Ends;
    var at := |d.code|;
    var (outer, ops) := (State(d.code + [x], d.open + [at]), FlatAll(body, at + 1));
    var inner := State(d.code + [x] + ops, d.open + [at]);
    FeedBoth(d, [first] + TokensAll(body), [EndMark]);
    FeedBoth(d, [first], TokensAll(body));
    FeedOne(d, first);
    ReadsAll(outer, body);
    FeedOne(inner, EndMark);
    ClosesLabel(d.code, x, ops, at + 1 + Length(body), y);
    assert inner.open[..|d.open|] == d.open;
  }

  lemma {:induction false} ReadsArms(d: State, i: Instr)
    requires OkState(d) && i.IfElse?
    ensures FeedAll(d, Tokens(i)) == Some(State(d.code + Flat(i, |d.code|), d.open))
    decreases i, 0
  {
    hide *;
    var (at, mid) := (|d.code|, |d.code| + 1 + Length(i.yes));
    var (first, second) := (FlatAll(i.yes, at + 1), FlatAll(i.no, mid + 1));
    var turned := State(d.code + [W.Op.If(mid, 0, i.params, i.results)] + first + [W.Else(0)], d.open + [at]);
    ReadsFirst(d, i.yes, i.params, i.results);
    ReadsAll(turned, i.no);
    ArmsClose(d, first, second, i.params, i.results);
    FeedLast(d, [OpenIf(i.params, i.results)] + TokensAll(i.yes) + [ElseMark], turned, TokensAll(i.no),
      State(turned.code + second, d.open + [at]));
    ArmsParts(i, at);
  }

  lemma ArmsParts(i: Instr, at: nat)
    requires i.IfElse?
    ensures Tokens(i) == [OpenIf(i.params, i.results)] + TokensAll(i.yes) + [ElseMark] + TokensAll(i.no) + [EndMark]
    ensures var mid := at + 1 + Length(i.yes);
      var end := mid + 1 + Length(i.no);
      Flat(i, at) == [W.Op.If(mid, end, i.params, i.results)] + FlatAll(i.yes, at + 1) + [W.Else(end)]
        + FlatAll(i.no, mid + 1) + [W.End]
  {
  }

  lemma FeedLast(d: State, a: seq<Token>, half: State, b: seq<Token>, full: State)
    requires OkState(d) && FeedAll(d, a) == Some(half) && OkState(half) && FeedAll(half, b) == Some(full)
    ensures OkState(full) && FeedAll(d, a + b + [EndMark]) == Feed(full, EndMark)
  {
    hide FeedAll, Feed;
    FeedBoth(d, a, b);
    FeedBoth(d, a + b, [EndMark]);
    FeedOne(full, EndMark);
  }

  lemma {:induction false} ReadsFirst(d: State, yes: Code, params: nat, results: nat)
    requires OkState(d)
    ensures var (at, mid) := (|d.code|, |d.code| + 1 + Length(yes));
      FeedAll(d, [OpenIf(params, results)] + TokensAll(yes) + [ElseMark])
        == Some(State(d.code + [W.Op.If(mid, 0, params, results)] + FlatAll(yes, at + 1) + [W.Else(0)],
                      d.open + [at]))
    decreases yes, 3
  {
    hide FeedAll, FlatAll, TokensAll, Closed;
    var (at, first, x) := (|d.code|, OpenIf(params, results), W.Op.If(0, 0, params, results));
    var (outer, ops) := (State(d.code + [x], d.open + [at]), FlatAll(yes, at + 1));
    var half := State(d.code + [x] + ops, d.open + [at]);
    FeedBoth(d, [first] + TokensAll(yes), [ElseMark]);
    FeedBoth(d, [first], TokensAll(yes));
    FeedOne(d, first);
    ReadsAll(outer, yes);
    FeedOne(half, ElseMark);
    Replaces(d.code, x, ops, W.Op.If(|half.code|, 0, params, results));
  }

  /** The end of a conditional, written into both its instructions. */
  lemma ArmsClose(d: State, yes: seq<W.Op>, no: seq<W.Op>, params: nat, results: nat)
    requires OkState(d)
    ensures var at := |d.code|;
      var mid := at + 1 + |yes|;
      var end := mid + 1 + |no|;
      var full := State(d.code + [W.Op.If(mid, 0, params, results)] + yes + [W.Else(0)] + no, d.open + [at]);
      && OkState(full)
      && Feed(full, EndMark)
        == Some(State(d.code + ([W.Op.If(mid, end, params, results)] + yes + [W.Else(end)] + no + [W.End]), d.open))
  {
    var at := |d.code|;
    var mid := at + 1 + |yes|;
    var end := mid + 1 + |no|;
    var full := State(d.code + [W.Op.If(mid, 0, params, results)] + yes + [W.Else(0)] + no, d.open + [at]);
    BothClose(d.code, yes, no, mid, end, params, results);
    assert full.open[..|d.open|] == d.open;
    hide Closed;
    var ended := W.Op.If(mid, end, params, results);
    FollowAll(d.code, [ended], yes, [W.Else(end)], no, [W.End]);
  }

  lemma FollowAll(a: seq<W.Op>, b: seq<W.Op>, c: seq<W.Op>, d: seq<W.Op>, e: seq<W.Op>, f: seq<W.Op>)
    ensures a + b + c + d + e + f == a + (b + c + d + e + f)
  {
    Follow(a + b + c + d, e, f);
    Follow(a + b + c, d, e + f);
    Follow(a + b, c, d + (e + f));
    Follow(a, b, c + (d + (e + f)));
    Follow(b + c + d, e, f);
    Follow(b + c, d, e + f);
    Follow(b, c, d + (e + f));
  }

  lemma BothClose(before: seq<W.Op>, yes: seq<W.Op>, no: seq<W.Op>, mid: nat, end: nat, params: nat, results: nat)
    requires mid == |before| + 1 + |yes|
    ensures Closed(before + [W.Op.If(mid, 0, params, results)] + yes + [W.Else(0)] + no, |before|, end)
         == before + [W.Op.If(mid, end, params, results)] + yes + [W.Else(end)] + no
  {
    var (x, y) := (W.Op.If(mid, 0, params, results), W.Op.If(mid, end, params, results));
    var code := before + [x] + yes + [W.Else(0)] + no;
    Follow(before + [x], yes, [W.Else(0)]);
    Follow(before + [x], yes + [W.Else(0)], no);
    Replaces(before, x, yes + [W.Else(0)] + no, y);
    Follow(before + [y], yes + [W.Else(0)], no);
    Follow(before + [y], yes, [W.Else(0)]);
    assert code[|before| := y] == before + [y] + yes + [W.Else(0)] + no;
    Replaces(before + [y] + yes, W.Else(0), no, W.Else(end));
  }

  /** The tokens of a function are read as its flat code. */
  lemma FunctionReads(f: Func)
    ensures FeedAll(State([], []), TokensAll(f.body) + [EndMark]) == Some(State(Flatten(f), []))
  {
    var d := State([], []);
    ReadsAll(d, f.body);
    FeedBoth(d, TokensAll(f.body), [EndMark]);
    assert d.code + FlatAll(f.body, 0) == FlatAll(f.body, 0);
    FeedOne(State(FlatAll(f.body, 0), []), EndMark);
  }

  lemma NeverStops(ts: seq<Token>)
    ensures forall f: Func :: ts == TokensAll(f.body) + [EndMark] ==>
      FeedAll(State([], []), ts) == Some(State(Flatten(f), []))
  {
    forall f: Func | ts == TokensAll(f.body) + [EndMark]
      ensures FeedAll(State([], []), ts) == Some(State(Flatten(f), []))
    {
      FunctionReads(f);
    }
  }
}
