/**
 Request targets as clients write them, and that the parser reads back exactly those (sections 2.1
 and 3.4 of RFC 3986).
 */
module HttpTargets {
  import opened Bytes
  import opened HttpUris

  // ---------- what a client may write ----------

  /** One byte of a text as a client writes it; each hexadecimal digit may be in either case. */
  datatype Written = Plain(b: Byte) | Escaped(hi: Byte, lo: Byte) | Plus {
    predicate Allowed(part: Part) {
      match this
      case Plain(b) =>
        && b !in {SPACE, HASH, PERCENT}
        && (part == Location ==> b != QUESTION)
        && (part == Key ==> b !in {EQUALS, PLUS})
        && (part == Value ==> b !in {AMPERSAND, PLUS})
      case Escaped(hi, lo) => IsHex(hi) && IsHex(lo)
      case Plus => part != Location
    }

    function Wire(): seq<Byte> {
      match this
      case Plain(b) => [b]
      case Escaped(hi, lo) => [PERCENT, hi, lo]
      case Plus => [PLUS]
    }

    function Meaning(): Byte {
      match this
      case Plain(b) => b
      case Escaped(hi, lo) => HexValue(hi) * 16 + HexValue(lo)
      case Plus => SPACE
    }
  }

  /** An escaped slash, in either case, is a slash. */
  lemma EscapedSlash()
    ensures Escaped('2' as int, 'f' as int).Meaning() == Escaped('2' as int, 'F' as int).Meaning() == '/' as int == SLASH
  {
  }

  predicate AllAllowed(ws: seq<Written>, part: Part) { forall i :: 0 <= i < |ws| ==> ws[i].Allowed(part) }

  function Wire(ws: seq<Written>): seq<Byte> {
    if ws == [] then [] else ws[0].Wire() + Wire(ws[1..])
  }

  function Meaning(ws: seq<Written>): Text {
    if ws == [] then [] else [ws[0].Meaning()] + Meaning(ws[1..])
  }

  function HexDigit(v: nat): (b: Byte)
    requires v < 16
    ensures IsHex(b) && HexValue(b) == v
  {
    if v < 10 then 48 + v else 55 + v
  }

  function EscapeAll(text: Text): seq<Written> {
    if text == [] then [] else [Escaped(HexDigit(text[0] / 16), HexDigit(text[0] % 16))] + EscapeAll(text[1..])
  }

  /** Every text can be written in every part. */
  lemma {:induction false} EverythingCanBeWritten(text: Text, part: Part)
    ensures AllAllowed(EscapeAll(text), part) && Meaning(EscapeAll(text)) == text
  {
    if text != [] {
      EverythingCanBeWritten(text[1..], part);
    }
  }

  datatype Pair = Pair(key: seq<Written>, value: seq<Written>) {
    predicate Valid() { key != [] && value != [] && AllAllowed(key, Key) && AllAllowed(value, Value) }
  }

  predicate AllPairs(ps: seq<Pair>) { forall i :: 0 <= i < |ps| ==> ps[i].Valid() }

  function PairWire(pair: Pair): seq<Byte> { Wire(pair.key) + [EQUALS] + Wire(pair.value) }

  /** The query behind the question mark, with the space that ends it. */
  function QueryWire(ps: seq<Pair>): seq<Byte>
    requires ps != []
  {
    PairWire(ps[0]) + if |ps| == 1 then [SPACE] else [AMPERSAND] + QueryWire(ps[1..])
  }

  /** The whole target, with the space that ends it. */
  function TargetWire(path: seq<Written>, ps: seq<Pair>): seq<Byte> {
    Wire(path) + if ps == [] then [SPACE] else [QUESTION] + QueryWire(ps)
  }

  function Collect(args: Arguments, ps: seq<Pair>): Arguments
    decreases |ps|
  {
    if ps == [] then args else Collect(Add(args, Meaning(ps[0].key), Meaning(ps[0].value)), ps[1..])
  }

  /** The values that a query gives to one key, in order. */
  function ValuesOf(ps: seq<Pair>, key: Text): seq<Text> {
    if ps == [] then []
    else (if Meaning(ps[0].key) == key then [Meaning(ps[0].value)] else []) + ValuesOf(ps[1..], key)
  }

  lemma {:induction false} CollectedValues(args: Arguments, ps: seq<Pair>, key: Text)
    ensures var all := (if key in args then args[key] else []) + ValuesOf(ps, key);
      && (key in args ==> key in Collect(args, ps))
      && (ValuesOf(ps, key) != [] ==> key in Collect(args, ps))
      && (key in Collect(args, ps) ==> (key in args || ValuesOf(ps, key) != []) && Collect(args, ps)[key] == all)
    decreases |ps|
  {
    if ps != [] {
      CollectedValues(Add(args, Meaning(ps[0].key), Meaning(ps[0].value)), ps[1..], key);
    }
  }

  // ---------- reading it back ----------

  /** The parser in `part` of a target, before its next byte. */
  predicate In(p: Parser, part: Part) { p.stage == Reading(part) && p.error == 0 && p.index <= URI_SIZE }

  /** Reading `buf` makes `q` of `p`, but for the counters, unless the target gets too long. */
  predicate Reads(p: Parser, buf: seq<Byte>, q: Parser)
    requires p.Valid()
  {
    var r := Run(p, buf);
    if p.index + |buf| <= URI_SIZE then r == q.(index := p.index + |buf|, count := r.count) else r.error == INVALID_URI
  }

  lemma RunNothing(p: Parser)
    requires p.Valid()
    ensures Run(p, []) == p
  {
  }

  lemma StoppedRuns(p: Parser, buf: seq<Byte>)
    requires p.Valid() && p.Stopped()
    ensures Run(p, buf) == p
  {
  }

  lemma ReadsThen(p: Parser, a: seq<Byte>, b: seq<Byte>, q: Parser)
    requires p.Valid()
    requires p.index + |a| <= URI_SIZE ==> Run(p, a).index == p.index + |a| && Reads(Run(p, a), b, q)
    requires p.index + |a| > URI_SIZE ==> Run(p, a).error == INVALID_URI
    ensures Reads(p, a + b, q)
  {
    hide Run;
    RunConcat(p, a, b);
    if p.index + |a| > URI_SIZE {
      StoppedRuns(Run(p, a), b);
    }
  }

  lemma FeedPercent(p: Parser, part: Part)
    requires p.Valid() && In(p, part) && p.index < URI_SIZE
    ensures Feed(p, PERCENT) == p.(index := p.index + 1, count := 0, stage := Decoding(part))
  {
  }

  lemma FeedTooFar(p: Parser, b: Byte)
    requires p.Valid() && !p.Stopped() && p.index >= URI_SIZE && (p.stage.Reading? || p.stage.Decoding?)
    ensures Feed(p, b).error == INVALID_URI
  {
  }

  lemma FeedHigh(p: Parser, part: Part, hi: Byte)
    requires p.Valid() && p.stage == Decoding(part) && p.error == 0 && p.count == 0 && p.index < URI_SIZE && IsHex(hi)
    ensures Feed(p, hi) == p.Push(part, [HexValue(hi) * 16]).(index := p.index + 1, count := 1)
  {
  }

  lemma FeedLow(p: Parser, part: Part, text: Text, high: nat, lo: Byte)
    requires p.Valid() && p.stage == Decoding(part) && p.error == 0 && p.count == 1 && p.index < URI_SIZE && IsHex(lo)
    requires high < 16 && p.At(part) == text + [high * 16]
    ensures Feed(p, lo) == p.With(part, text + [high * 16 + HexValue(lo)]).(index := p.index + 1, stage := Reading(part))
  {
  }

  lemma RunEscaped(p: Parser, part: Part, hi: Byte, lo: Byte)
    requires p.Valid() && In(p, part) && IsHex(hi) && IsHex(lo)
    ensures Reads(p, [PERCENT, hi, lo], p.Push(part, [HexValue(hi) * 16 + HexValue(lo)]))
  {
    hide Feed, IsHex, HexValue;
    var buf := [PERCENT, hi, lo];
    assert buf[1..] == [hi, lo] && [hi, lo][1..] == [lo] && [lo][1..] == [];
    if p.index >= URI_SIZE {
      FeedTooFar(p, PERCENT);
      StoppedRuns(Feed(p, PERCENT), [hi, lo]);
      return;
    }
    FeedPercent(p, part);
    var p1 := Feed(p, PERCENT);
    if p1.index >= URI_SIZE {
      FeedTooFar(p1, hi);
      StoppedRuns(Feed(p1, hi), [lo]);
      assert Run(p1, [hi, lo]) == Feed(p1, hi);
      return;
    }
    FeedHigh(p1, part, hi);
    var p2 := Feed(p1, hi);
    RunOne(p2, lo);
    assert Run(p1, [hi, lo]) == Run(p2, [lo]);
    if p2.index >= URI_SIZE {
      FeedTooFar(p2, lo);
      return;
    }
    FeedLow(p2, part, p.At(part), HexValue(hi), lo);
  }

  lemma RunWritten(p: Parser, part: Part, w: Written)
    requires p.Valid() && In(p, part) && w.Allowed(part)
    ensures Reads(p, w.Wire(), p.Push(part, [w.Meaning()]))
  {
    hide FeedDecoding;
    match w
    case Plain(b) => RunOne(p, b);
    case Plus => RunOne(p, PLUS);
    case Escaped(hi, lo) => RunEscaped(p, part, hi, lo);
  }

  lemma TextThen(p: Parser, part: Part, a: seq<Byte>, c: Byte, b: seq<Byte>, text: Text)
    requires p.Valid() && Reads(p, a, p.Push(part, [c]))
    requires p.index + |a| <= URI_SIZE ==> Reads(Run(p, a), b, Run(p, a).Push(part, text))
    ensures Reads(p, a + b, p.Push(part, [c] + text))
  {
    hide Run;
    assert p.At(part) + [c] + text == p.At(part) + ([c] + text);
    ReadsThen(p, a, b, p.Push(part, [c] + text));
  }

  lemma {:induction false} RunText(p: Parser, part: Part, ws: seq<Written>)
    requires p.Valid() && In(p, part) && AllAllowed(ws, part)
    ensures Reads(p, Wire(ws), p.Push(part, Meaning(ws)))
    decreases |ws|
  {
    hide Run, Feed;
    if ws == [] {
      RunNothing(p);
      assert p.At(part) + [] == p.At(part);
    } else {
      var wire, c := ws[0].Wire(), ws[0].Meaning();
      RunWritten(p, part, ws[0]);
      if p.index + |wire| <= URI_SIZE {
        RunText(Run(p, wire), part, ws[1..]);
      }
      TextThen(p, part, wire, c, Wire(ws[1..]), Meaning(ws[1..]));
    }
  }

  // ---------- the marks between the parts ----------

  lemma RunQuestion(p: Parser)
    requires p.Valid() && In(p, Location)
    ensures Reads(p, [QUESTION], p.(stage := Reading(Key)))
  {
  }

  lemma RunEquals(p: Parser)
    requires p.Valid() && In(p, Key) && p.key != []
    ensures Reads(p, [EQUALS], p.(stage := Reading(Value)))
  {
  }

  function Stored(p: Parser): Parser { p.(args := Add(p.args, p.key, p.value), key := [], value := []) }

  lemma RunAmpersand(p: Parser)
    requires p.Valid() && In(p, Value) && p.value != []
    ensures Reads(p, [AMPERSAND], Stored(p).(stage := Reading(Key)))
  {
  }

  /** The space that ends the target counts as one of its bytes. */
  lemma RunSpace(p: Parser)
    requires p.Valid() && (In(p, Location) || (In(p, Value) && p.value != []))
    ensures var q := Run(p, [SPACE]);
      if p.index < URI_SIZE then q == (if p.stage.part == Value then Stored(p) else p).(stage := AfterUri, index := 1)
      else q.error == INVALID_URI
  {
  }

  lemma RunPair(p: Parser, pair: Pair)
    requires p.Valid() && In(p, Key) && p.key == [] && p.value == [] && pair.Valid()
    ensures Reads(p, PairWire(pair), p.(stage := Reading(Value), key := Meaning(pair.key), value := Meaning(pair.value)))
  {
    hide Run, Feed;
    var a, c := Wire(pair.key), Wire(pair.value);
    var q := p.(stage := Reading(Value), key := Meaning(pair.key), value := Meaning(pair.value));
    RunText(p, Key, pair.key);
    assert [] + Meaning(pair.key) == Meaning(pair.key) && [] + Meaning(pair.value) == Meaning(pair.value);
    var m := Run(p, a);
    if p.index + |a| <= URI_SIZE {
      RunEquals(m);
      var n := Run(m, [EQUALS]);
      if m.index + 1 <= URI_SIZE {
        RunText(n, Value, pair.value);
      }
      ReadsThen(m, [EQUALS], c, q);
    }
    ReadsThen(p, a, [EQUALS] + c, q);
    assert a + ([EQUALS] + c) == PairWire(pair);
  }

  // ---------- the whole target ----------

  /** Reading `buf` ends the target and makes `q` of `p`, unless the target gets too long. */
  predicate Ends(p: Parser, buf: seq<Byte>, q: Parser)
    requires p.Valid()
  {
    var r := Run(p, buf);
    if p.index + |buf| <= URI_SIZE then r == q.(stage := AfterUri, index := 1, count := r.count) else r.error == INVALID_URI
  }

  lemma ReadsEnds(p: Parser, a: seq<Byte>, m: Parser, b: seq<Byte>, q: Parser)
    requires p.Valid() && Reads(p, a, m)
    requires p.index + |a| <= URI_SIZE ==> Ends(Run(p, a), b, q)
    ensures Ends(p, a + b, q)
  {
    hide Run;
    RunConcat(p, a, b);
    if p.index + |a| > URI_SIZE {
      StoppedRuns(Run(p, a), b);
    }
  }

  lemma {:induction false} RunQuery(p: Parser, ps: seq<Pair>)
    requires p.Valid() && In(p, Key) && p.key == [] && p.value == [] && ps != [] && AllPairs(ps)
    ensures Ends(p, QueryWire(ps), p.(args := Collect(p.args, ps)))
    decreases |ps|
  {
    hide Run, PairWire, Add;
    var a := PairWire(ps[0]);
    var m := p.(stage := Reading(Value), key := Meaning(ps[0].key), value := Meaning(ps[0].value));
    MeaningLength(ps[0].value);
    RunPair(p, ps[0]);
    var n := Run(p, a);
    var q := p.(args := Collect(p.args, ps));
    if |ps| == 1 {
      assert Collect(p.args, ps) == Add(p.args, m.key, m.value) by { assert ps[1..] == []; }
      if n.error == 0 {
        RunSpace(n);
      }
      ReadsEnds(p, a, m, [SPACE], q);
    } else {
      var b := QueryWire(ps[1..]);
      if p.index + |a| <= URI_SIZE {
        RunAmpersand(n);
        var k := Run(n, [AMPERSAND]);
        if n.index + 1 <= URI_SIZE {
          RunQuery(k, ps[1..]);
        }
        ReadsEnds(n, [AMPERSAND], Stored(n).(stage := Reading(Key)), b, q);
      }
      ReadsEnds(p, a, m, [AMPERSAND] + b, q);
    }
  }

  lemma MeaningLength(ws: seq<Written>)
    ensures ws != [] ==> Meaning(ws) != []
  {
  }

  lemma RunTarget(p: Parser, path: seq<Written>, ps: seq<Pair>)
    requires p.Valid() && In(p, Location) && p.key == [] && p.value == []
    requires AllAllowed(path, Location) && AllPairs(ps)
    ensures Ends(p, TargetWire(path, ps), p.Push(Location, Meaning(path)).(args := Collect(p.args, ps)))
  {
    hide Run;
    var a := Wire(path);
    var m := p.Push(Location, Meaning(path));
    var q := m.(args := Collect(p.args, ps));
    RunText(p, Location, path);
    var n := Run(p, a);
    if ps == [] {
      if p.index + |a| <= URI_SIZE {
        RunSpace(n);
      }
      ReadsEnds(p, a, m, [SPACE], q);
    } else {
      var b := QueryWire(ps);
      if p.index + |a| <= URI_SIZE {
        RunQuestion(n);
        if n.index + 1 <= URI_SIZE {
          RunQuery(Run(n, [QUESTION]), ps);
        }
        ReadsEnds(n, [QUESTION], n.(stage := Reading(Key)), b, q);
      }
      ReadsEnds(p, a, m, [QUESTION] + b, q);
    }
  }

  lemma RunMethod()
    ensures Run(START, METHOD + [SPACE]) == START.(stage := BeforeUri, index := 1)
  {
    var p1, p2 := START.(stage := Method), START.(stage := Method, index := 1);
    assert METHOD + [SPACE] == [71] + ([69] + ([84] + [SPACE]));
    RunConcat(START, [71], [69] + ([84] + [SPACE]));
    RunOne(START, 71);
    RunConcat(p1, [69], [84] + [SPACE]);
    RunOne(p1, 69);
    RunConcat(p2, [84], [SPACE]);
    RunOne(p2, 84);
    RunOne(START.(stage := BeforeUri), SPACE);
  }

  lemma RunSlash(target: seq<Byte>)
    requires target != [] && target[0] == SLASH
    ensures Run(START.(stage := BeforeUri, index := 1), target) == Run(START.(stage := Reading(Location)), target)
  {
  }

  /** Round trip: a request target that is written in any of the ways there are, and cut anywhere, is
      read back as the path and the arguments it means, exactly if it has less than 1024 bytes. */
  lemma TargetRoundTrip(path: seq<Written>, ps: seq<Pair>, rest: seq<Byte>, bufs: seq<seq<Byte>>, key: Text)
    requires path != [] && path[0] == Plain(SLASH) && AllAllowed(path, Location) && AllPairs(ps)
    requires Concat(bufs) == METHOD + [SPACE] + TargetWire(path, ps) + rest
    ensures var q := RunAll(START, bufs);
      if |TargetWire(path, ps)| <= URI_SIZE
      then
        && q.stage == AfterUri && q.error == 0
        && q.location == Meaning(path)
        && (key in q.args <==> ValuesOf(ps, key) != [])
        && (key in q.args ==> q.args[key] == ValuesOf(ps, key))
      else q.error == INVALID_URI
  {
    hide Run, Feed;
    var line, target := METHOD + [SPACE], TargetWire(path, ps);
    RunAnyCut(START, bufs);
    RunMethod();
    RunConcat(START, line, target);
    RunConcat(START, line + target, rest);
    assert target[0] == SLASH;
    RunSlash(target);
    var p := START.(stage := Reading(Location));
    RunTarget(p, path, ps);
    StoppedRuns(Run(p, target), rest);
    assert [] + Meaning(path) == Meaning(path);
    CollectedValues(map[], ps, key);
  }

  // ---------- nothing else is accepted ----------

  predicate Accepted(p: Parser) { p.stage == AfterUri && p.error == 0 }

  /** Does `b` end a part? */
  predicate IsMark(part: Part, b: Byte) {
    match part
    case Location => b == SPACE || b == QUESTION
    case Key => b == EQUALS
    case Value => b == SPACE || b == AMPERSAND
  }

  /** What the next byte makes of the parser is no error, if the input is accepted. */
  lemma AcceptedStep(p: Parser, buf: seq<Byte>)
    requires p.Valid() && !p.Stopped() && Accepted(Run(p, buf))
    ensures buf != [] && Feed(p, buf[0]).error == 0 && Run(p, buf) == Run(Feed(p, buf[0]), buf[1..])
  {
    hide Feed;
    if Feed(p, buf[0]).error != 0 {
      StoppedRuns(Feed(p, buf[0]), buf[1..]);
    }
  }

  lemma AcceptedEscape(p: Parser, part: Part, buf: seq<Byte>)
    requires p.Valid() && In(p, part) && Accepted(Run(p, buf)) && buf != [] && buf[0] == PERCENT
    ensures |buf| >= 3 && IsHex(buf[1]) && IsHex(buf[2])
  {
    AcceptedStep(p, buf);
    var p1 := Feed(p, buf[0]);
    AcceptedStep(p1, buf[1..]);
    var p2 := Feed(p1, buf[1]);
    AcceptedStep(p2, buf[1..][1..]);
  }

  /** Accepted input goes on with something a client may write, or with the end of the part. */
  lemma NextWritten(p: Parser, part: Part, buf: seq<Byte>) returns (w: Written)
    requires p.Valid() && In(p, part) && Accepted(Run(p, buf)) && buf != [] && !IsMark(part, buf[0])
    ensures w.Allowed(part) && w.Wire() <= buf
  {
    if buf[0] == PERCENT {
      AcceptedEscape(p, part, buf);
      w := Escaped(buf[1], buf[2]);
    } else {
      AcceptedStep(p, buf);
      w := if buf[0] == PLUS && part != Location then Plus else Plain(buf[0]);
    }
  }

  /** The next thing written, and what is read behind it. */
  lemma ReadOne(p: Parser, part: Part, buf: seq<Byte>) returns (w: Written, more: seq<Byte>)
    requires p.Valid() && In(p, part) && Accepted(Run(p, buf)) && buf != [] && !IsMark(part, buf[0])
    ensures w.Allowed(part) && w.Wire() != [] && buf == w.Wire() + more
    ensures var n := Run(p, w.Wire());
      && In(n, part) && Run(p, buf) == Run(n, more)
      && n == p.Push(part, [w.Meaning()]).(index := n.index, count := n.count)
  {
    hide Run, Feed;
    w := NextWritten(p, part, buf);
    more := buf[|w.Wire()|..];
    assert buf == w.Wire() + more;
    RunConcat(p, w.Wire(), more);
    RunWritten(p, part, w);
    if p.index + |w.Wire()| > URI_SIZE {
      StoppedRuns(Run(p, w.Wire()), more);
      assert false;
    }
  }

  lemma PushTwice(p: Parser, part: Part, x: Text, y: Text)
    ensures p.Push(part, x).Push(part, y) == p.Push(part, x + y)
  {
    assert p.At(part) + x + y == p.At(part) + (x + y);
  }

  lemma {:induction false} ReadText(p: Parser, part: Part, buf: seq<Byte>) returns (ws: seq<Written>, rest: seq<Byte>)
    requires p.Valid() && In(p, part) && Accepted(Run(p, buf))
    ensures AllAllowed(ws, part) && buf == Wire(ws) + rest && rest != [] && IsMark(part, rest[0])
    ensures var q := Run(p, Wire(ws));
      && In(q, part) && Run(p, buf) == Run(q, rest)
      && q == p.Push(part, Meaning(ws)).(index := q.index, count := q.count)
    decreases |buf|
  {
    hide Run, Feed;
    AcceptedStep(p, buf);
    if IsMark(part, buf[0]) {
      ws, rest := [], buf;
      RunNothing(p);
      assert p.At(part) + [] == p.At(part);
      return;
    }
    var w, more := ReadOne(p, part, buf);
    var later: seq<Written>;
    later, rest := ReadText(Run(p, w.Wire()), part, more);
    ws := [w] + later;
    RunConcat(p, w.Wire(), Wire(later));
    PushTwice(p, part, [w.Meaning()], Meaning(later));
    assert Wire(ws) + rest == w.Wire() + (Wire(later) + rest);
  }

  lemma {:induction false} ReadQuery(p: Parser, buf: seq<Byte>) returns (ps: seq<Pair>, rest: seq<Byte>)
    requires p.Valid() && In(p, Key) && p.key == [] && p.value == [] && Accepted(Run(p, buf))
    ensures ps != [] && AllPairs(ps) && buf == QueryWire(ps) + rest
    decreases |buf|
  {
    hide Run, Wire;
    var key, afterKey := ReadText(p, Key, buf);
    var m := Run(p, Wire(key));
    AcceptedStep(m, afterKey);
    var n := Feed(m, afterKey[0]);
    var value, afterValue := ReadText(n, Value, afterKey[1..]);
    var k := Run(n, Wire(value));
    AcceptedStep(k, afterValue);
    var pair := Pair(key, value);
    if afterValue[0] == SPACE {
      ps, rest := [pair], afterValue[1..];
      assert buf == PairWire(pair) + [SPACE] + rest;
    } else {
      var others: seq<Pair>;
      others, rest := ReadQuery(Feed(k, AMPERSAND), afterValue[1..]);
      ps := [pair] + others;
      assert ps[1..] == others;
      assert buf == PairWire(pair) + ([AMPERSAND] + QueryWire(others)) + rest;
    }
  }

  /** `buf` starts with a request line up to the end of its target, which is not too long. */
  predicate IsRequest(buf: seq<Byte>, path: seq<Written>, ps: seq<Pair>, rest: seq<Byte>) {
    && path != [] && path[0] == Plain(SLASH) && AllAllowed(path, Location) && AllPairs(ps)
    && |TargetWire(path, ps)| <= URI_SIZE
    && buf == METHOD + [SPACE] + TargetWire(path, ps) + rest
  }

  lemma ReadTarget(p: Parser, buf: seq<Byte>) returns (path: seq<Written>, ps: seq<Pair>, rest: seq<Byte>)
    requires p.Valid() && In(p, Location) && p.key == [] && p.value == [] && Accepted(Run(p, buf))
    ensures AllAllowed(path, Location) && AllPairs(ps) && buf == TargetWire(path, ps) + rest
  {
    hide Run, Wire;
    var afterPath: seq<Byte>;
    path, afterPath := ReadText(p, Location, buf);
    var m := Run(p, Wire(path));
    if afterPath[0] == SPACE {
      ps, rest := [], afterPath[1..];
      assert buf == Wire(path) + [SPACE] + rest;
    } else {
      AcceptedStep(m, afterPath);
      ps, rest := ReadQuery(Feed(m, QUESTION), afterPath[1..]);
      assert buf == Wire(path) + ([QUESTION] + QueryWire(ps)) + rest;
    }
  }

  /** The method and the spaces before the target are read one way only. */
  lemma AcceptedLine(p: Parser, buf: seq<Byte>)
    requires p == START && Accepted(Run(p, buf))
    ensures METHOD + [SPACE] <= buf && |buf| > 4 && buf[4] == SLASH
    ensures Run(p, buf) == Run(p.(stage := Reading(Location)), buf[4..])
  {
    hide Run, FeedReading;
    AcceptedStep(START, buf);
    var p1, b1 := START.(stage := Method), buf[1..];
    AcceptedStep(p1, b1);
    var p2, b2 := p1.(index := 1), b1[1..];
    AcceptedStep(p2, b2);
    var p3, b3 := START.(stage := BeforeUri), b2[1..];
    AcceptedStep(p3, b3);
    var p4, b4 := p3.(index := 1), b3[1..];
    AcceptedStep(p4, b4);
    assert b4 == buf[4..];
    RunSlash(b4);
  }

  /** The parser accepts exactly the request targets that can be written, of less than 1024 bytes. */
  lemma AcceptsExactly(buf: seq<Byte>)
    ensures Accepted(Run(START, buf)) <==> exists path, ps, rest :: IsRequest(buf, path, ps, rest)
  {
    hide Run, Feed;
    if Accepted(Run(START, buf)) {
      AcceptedLine(START, buf);
      var path, ps, rest := ReadTarget(START.(stage := Reading(Location)), buf[4..]);
      assert buf == METHOD + [SPACE] + TargetWire(path, ps) + rest;
      StartsWithSlash(path, ps, rest);
      var bufs := [buf];
      assert bufs[1..] == [] && buf + [] == buf;
      TargetRoundTrip(path, ps, rest, bufs, []);
      assert IsRequest(buf, path, ps, rest);
    }
    if path, ps, rest :| IsRequest(buf, path, ps, rest) {
      var bufs := [buf];
      assert bufs[1..] == [] && buf + [] == buf;
      TargetRoundTrip(path, ps, rest, bufs, []);
    }
  }

  lemma StartsWithSlash(path: seq<Written>, ps: seq<Pair>, rest: seq<Byte>)
    requires AllAllowed(path, Location) && (TargetWire(path, ps) + rest)[0] == SLASH
    ensures path != [] && path[0] == Plain(SLASH)
  {
  }
}
