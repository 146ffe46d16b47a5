/**
 The request target of an HTTP request line (src/protocol/http/http_parser.h, http_parser.cc):
 percent-encoding (section 2.1 of RFC 3986) undone byte by byte while the bytes come in.

 The model ends at the space behind the target; the version token and the headers are not part of
 it.  A string that the program has moved out of counts as empty.
 */
module HttpUris {
  import opened Bytes

  const URI_SIZE := 1024
  const INVALID_METHOD := 1
  const INVALID_URI := 2
  const PROTOCOL_ERROR := 6

  const SPACE: Byte := 32
  const HASH: Byte := 35
  const PERCENT: Byte := 37
  const AMPERSAND: Byte := 38
  const PLUS: Byte := 43
  const SLASH: Byte := 47
  const EQUALS: Byte := 61
  const QUESTION: Byte := 63

  const METHOD: seq<Byte> := [71, 69, 84]  // GET

  type Text = seq<Byte>

  /** `uri_encode_valid` and `uri_hex_map`. */
  predicate IsHex(b: Byte) { 48 <= b <= 57 || 65 <= b <= 70 || 97 <= b <= 102 }

  function HexValue(b: Byte): (v: nat)
    ensures v < 16
  {
    if 48 <= b <= 57 then b - 48 else if 65 <= b <= 70 then b - 55 else if 97 <= b <= 102 then b - 87 else 0
  }

  const LOWER := "0123456789abcdef"
  const UPPER := "0123456789ABCDEF"

  /** The sixteen digits in either case, and nothing else, with their values. */
  lemma HexDigits()
    ensures forall v :: 0 <= v < 16 ==> HexValue(LOWER[v] as int) == v == HexValue(UPPER[v] as int)
    ensures forall b: Byte :: IsHex(b) <==> exists v :: 0 <= v < 16 && (LOWER[v] as int == b || UPPER[v] as int == b)
  {
    forall b: Byte ensures IsHex(b) <==> exists v :: 0 <= v < 16 && (LOWER[v] as int == b || UPPER[v] as int == b) {
      if IsHex(b) {
        assert LOWER[HexValue(b)] as int == b || UPPER[HexValue(b)] as int == b;
      }
    }
  }

  datatype Part = Location | Key | Value

  datatype Stage = Start | Method | BeforeUri | Reading(part: Part) | Decoding(part: Part) | AfterUri

  type Arguments = map<Text, seq<Text>>

  /** One more value for a key. */
  function Add(args: Arguments, key: Text, value: Text): Arguments {
    args[key := (if key in args then args[key] else []) + [value]]
  }

  datatype Parser = Parser(
    stage: Stage, index: nat, count: nat, location: Text, args: Arguments, key: Text, value: Text, error: nat)
  {
    predicate Valid() {
      && (stage == Start ==> index == 0)
      && (stage == Method && error == 0 ==> index < 2)
      && (stage.Decoding? ==> HalfDecoded(stage.part))
    }

    /** The target is complete, or in error. */
    predicate Stopped() { stage == AfterUri || error != 0 }

    /** After the first digit the last byte is that digit, shifted. */
    predicate HalfDecoded(part: Part) {
      count > 0 ==> At(part) != [] && At(part)[|At(part)| - 1] % 16 == 0
    }

    function At(part: Part): Text {
      match part
      case Location => location
      case Key => key
      case Value => value
    }

    function With(part: Part, text: Text): Parser {
      match part
      case Location => this.(location := text)
      case Key => this.(key := text)
      case Value => this.(value := text)
    }

    function Push(part: Part, text: Text): Parser { With(part, At(part) + text) }
  }

  const START := Parser(Start, 0, 0, [], map[], [], [], 0)

  // ---------- one byte ----------

  function FeedReading(p: Parser, part: Part, b: Byte): Parser {
    var q := p.(index := p.index + 1);
    if q.index > URI_SIZE || b == HASH then q.(error := INVALID_URI)
    else if b == PERCENT then q.(stage := Decoding(part), count := 0)
    else match part
      case Location =>
        if b == SPACE then q.(stage := AfterUri, index := 1)
        else if b == QUESTION then q.(stage := Reading(Key))
        else q.Push(Location, [b])
      case Key =>
        if b == SPACE then q.(error := INVALID_URI)
        else if b == EQUALS then
          if q.key == [] then q.(error := PROTOCOL_ERROR) else q.(stage := Reading(Value))
        else q.Push(Key, [if b == PLUS then SPACE else b])
      case Value =>
        if b == SPACE || b == AMPERSAND then
          if q.value == [] then q.(error := PROTOCOL_ERROR)
          else
            var r := q.(args := Add(q.args, q.key, q.value), key := [], value := []);
            if b == SPACE then r.(stage := AfterUri, index := 1) else r.(stage := Reading(Key))
        else q.Push(Value, [if b == PLUS then SPACE else b])
  }

  function FeedDecoding(p: Parser, part: Part, b: Byte): Parser
    requires p.HalfDecoded(part)
  {
    var q := p.(index := p.index + 1);
    if q.index > URI_SIZE || !IsHex(b) then q.(error := INVALID_URI)
    else if q.count == 0 then q.(count := 1).Push(part, [HexValue(b) * 16])
    else
      var text := q.At(part);
      q.(stage := Reading(part)).With(part, text[|text| - 1 := text[|text| - 1] + HexValue(b)])
  }

  function Feed(p: Parser, b: Byte): (q: Parser)
    requires p.Valid() && !p.Stopped()
    ensures q.Valid()
  {
    match p.stage
    case Start => if b != METHOD[0] then p.(error := INVALID_METHOD) else p.(stage := Method)
    case Method =>
      var q := p.(index := p.index + 1);
      if b != METHOD[q.index] then q.(error := INVALID_METHOD)
      else if q.index == 2 then q.(stage := BeforeUri, index := 0)
      else q
    case BeforeUri =>
      if b == SPACE then
        var q := p.(index := p.index + 1);
        if q.index > 1 then q.(error := PROTOCOL_ERROR) else q
      else if b != SLASH || p.index != 1 then p.(error := PROTOCOL_ERROR)
      else FeedReading(p.(stage := Reading(Location), index := 0), Location, b)
    case Reading(part) => FeedReading(p, part, b)
    case Decoding(part) => FeedDecoding(p, part, b)
  }

  /** The parser after as much of `buf` as it takes. */
  function Run(p: Parser, buf: seq<Byte>): (q: Parser)
    requires p.Valid()
    ensures q.Valid()
    decreases |buf|
  {
    if p.Stopped() || buf == [] then p else Run(Feed(p, buf[0]), buf[1..])
  }

  function RunAll(p: Parser, bufs: seq<seq<Byte>>): (q: Parser)
    requires p.Valid()
    ensures q.Valid()
    decreases |bufs|
  {
    if bufs == [] then p else RunAll(Run(p, bufs[0]), bufs[1..])
  }

  lemma {:induction false} RunConcat(p: Parser, a: seq<Byte>, b: seq<Byte>)
    requires p.Valid()
    ensures Run(p, a + b) == Run(Run(p, a), b)
    decreases |a|
  {
    hide Feed;
    if a == [] {
      assert a + b == b;
    } else if !p.Stopped() {
      assert (a + b)[1..] == a[1..] + b;
      RunConcat(Feed(p, a[0]), a[1..], b);
    }
  }

  /** However the network cuts the request, the parser ends the same. */
  lemma {:induction false} RunAnyCut(p: Parser, bufs: seq<seq<Byte>>)
    requires p.Valid()
    ensures RunAll(p, bufs) == Run(p, Concat(bufs))
    decreases |bufs|
  {
    if bufs != [] {
      RunConcat(p, bufs[0], Concat(bufs[1..]));
      RunAnyCut(Run(p, bufs[0]), bufs[1..]);
    }
  }

  lemma RunOne(p: Parser, b: Byte)
    requires p.Valid() && !p.Stopped()
    ensures Run(p, [b]) == Feed(p, b)
  {
  }

  // ---------- the parser ----------

  class HttpParser {
    var state_: Stage
    var location_: Text
    var query_args_: Arguments
    var key_cache_: Text
    var value_cache_: Text
    var error_code_: nat
    var index_: nat
    var count_: nat

    ghost function View(): Parser
      reads this
    {
      Parser(state_, index_, count_, location_, query_args_, key_cache_, value_cache_, error_code_)
    }

    constructor ()
      ensures View() == START
    {
      state_, location_, query_args_, key_cache_, value_cache_ := Start, [], map[], [], [];
      error_code_, index_, count_ := 0, 0, 0;
    }

    /** Take bytes until the target is complete, the input is used up, or it is in error. */
    method ParserExecute(buffer: seq<Byte>) returns (i: nat)
      requires View().Valid() && View().error == 0
      modifies this
      ensures i <= |buffer| && View() == Run(old(View()), buffer)
      ensures error_code_ == 0 && state_ != AfterUri ==> i == |buffer|
    {
      hide Feed;
      i := 0;
      while i < |buffer| && state_ != AfterUri
        invariant i <= |buffer| && View().Valid() && View().error == 0
        invariant Run(View(), buffer[i..]) == Run(old(View()), buffer)
      {
        assert buffer[i..][0] == buffer[i] && buffer[i..][1..] == buffer[i + 1..];
        Step(buffer[i]);
        if error_code_ != 0 {
          return 0;
        }
        i := i + 1;
      }
    }

    /** The body of the byte loop. */
    method Step(ch: Byte)
      requires View().Valid() && !View().Stopped()
      modifies this
      ensures View() == Feed(old(View()), ch)
    {
      match state_ {
        case Start =>
          if ch != METHOD[0] {
            error_code_ := INVALID_METHOD;
            return;
          }
          state_ := Method;
        case Method =>
          index_ := index_ + 1;
          if ch != METHOD[index_] {
            error_code_ := INVALID_METHOD;
          } else if index_ == 2 {
            state_, index_ := BeforeUri, 0;
          }
        case BeforeUri =>
          if ch == SPACE {
            index_ := index_ + 1;
            if index_ > 1 {
              error_code_ := PROTOCOL_ERROR;
            }
            return;
          }
          if ch != SLASH || index_ != 1 {
            error_code_ := PROTOCOL_ERROR;
            return;
          }
          state_, index_ := Reading(Location), 0;
          ReadLocation(ch);
        case Reading(part) =>
          match part {
            case Location => ReadLocation(ch);
            case Key => ReadKey(ch);
            case Value => ReadValue(ch);
          }
        case Decoding(part) =>
          Decode(part, ch);
      }
    }

    method ReadLocation(ch: Byte)
      modifies this
      ensures View() == FeedReading(old(View()), Location, ch)
    {
      index_ := index_ + 1;
      if index_ > URI_SIZE || ch == HASH {
        error_code_ := INVALID_URI;
      } else if ch == SPACE {
        state_, index_ := AfterUri, 1;
      } else if ch == QUESTION {
        state_ := Reading(Key);
      } else if ch == PERCENT {
        state_, count_ := Decoding(Location), 0;
      } else {
        location_ := location_ + [ch];
      }
    }

    method ReadKey(ch: Byte)
      modifies this
      ensures View() == FeedReading(old(View()), Key, ch)
    {
      index_ := index_ + 1;
      if index_ > URI_SIZE || ch == SPACE || ch == HASH {
        error_code_ := INVALID_URI;
      } else if ch == EQUALS {
        if key_cache_ == [] {
          error_code_ := PROTOCOL_ERROR;
          return;
        }
        state_ := Reading(Value);
      } else if ch == PERCENT {
        state_, count_ := Decoding(Key), 0;
      } else if ch == PLUS {
        key_cache_ := key_cache_ + [SPACE];
      } else {
        key_cache_ := key_cache_ + [ch];
      }
    }

    method ReadValue(ch: Byte)
      modifies this
      ensures View() == FeedReading(old(View()), Value, ch)
    {
      index_ := index_ + 1;
      if index_ > URI_SIZE || ch == HASH {
        error_code_ := INVALID_URI;
      } else if ch == SPACE || ch == AMPERSAND {
        if value_cache_ == [] {
          error_code_ := PROTOCOL_ERROR;
          return;
        }
        if key_cache_ in query_args_ {
          query_args_ := query_args_[key_cache_ := query_args_[key_cache_] + [value_cache_]];
        } else {
          assert [] + [value_cache_] == [value_cache_];
          query_args_ := query_args_[key_cache_ := [value_cache_]];
        }
        key_cache_, value_cache_ := [], [];
        if ch == SPACE {
          state_, index_ := AfterUri, 1;
        } else {
          state_ := Reading(Key);
        }
      } else if ch == PLUS {
        value_cache_ := value_cache_ + [SPACE];
      } else if ch == PERCENT {
        state_, count_ := Decoding(Value), 0;
      } else {
        value_cache_ := value_cache_ + [ch];
      }
    }

    /** The three states that read a hexadecimal digit. */
    method Decode(part: Part, ch: Byte)
      requires View().HalfDecoded(part)
      modifies this
      ensures View() == FeedDecoding(old(View()), part, ch)
    {
      index_ := index_ + 1;
      if index_ > URI_SIZE || !IsHex(ch) {
        error_code_ := INVALID_URI;
        return;
      }
      if count_ == 0 {
        count_ := count_ + 1;
        var text := [HexValue(ch) * 16];
        match part {
          case Location => location_ := location_ + text;
          case Key => key_cache_ := key_cache_ + text;
          case Value => value_cache_ := value_cache_ + text;
        }
        return;
      }
      state_ := Reading(part);
      match part {
        case Location =>
          var k := |location_| - 1;
          location_ := location_[k := location_[k] + HexValue(ch)];
        case Key =>
          var k := |key_cache_| - 1;
          key_cache_ := key_cache_[k := key_cache_[k] + HexValue(ch)];
        case Value =>
          var k := |value_cache_| - 1;
          value_cache_ := value_cache_[k := value_cache_[k] + HexValue(ch)];
      }
    }
  }
}
