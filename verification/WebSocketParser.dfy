/**
 The incremental WebSocket frame parser (src/protocol/websocket/websocket_parser.h,
 websocket_parser.cc) and the frames it reads (section 5.2 of RFC 6455).
 */
module WebSocketParsers {
  import opened Bytes

  const MAX_PAYLOAD_LENGTH := 65536
  const CLOSE_PROTOCOL_ERROR := 1002
  const CLOSE_PAYLOAD_TOO_BIG := 1009

  datatype Stage =
    FinAndOpcode | MaskAndLen | PayloadLen16 | PayloadLen64 | MaskingKey | PayloadData | Done

  /** Everything the parser remembers between two bytes.  `raw` is the memory of the length while its
      bytes come in, in network order. */
  datatype Parser = Parser(
    stage: Stage, fin: bool, rsv: nat, opcode: nat, raw: seq<Byte>, length: nat,
    mask: seq<Byte>, remain: nat, data: seq<Byte>, error: nat)
  {
    predicate Valid() {
      && |raw| == 8 && |mask| == 4
      && (stage == PayloadLen16 && error == 0 ==> 1 <= remain <= 2)
      && (stage == PayloadLen64 && error == 0 ==> 1 <= remain <= 8)
      && (stage == MaskingKey ==> 1 <= remain <= 4)
      && (stage == PayloadData ==> 1 <= remain <= length)
    }

    /** The parser takes no further byte. */
    predicate Stopped() { stage == Done || error != 0 }

    /** A call can go on from here, whatever an earlier one has ended with. */
    predicate Resumable() { this.(error := 0).Valid() }

    function Reset(): Parser { this.(stage := FinAndOpcode, remain := 1, data := []) }
  }

  /** The parser after the length is known. */
  function WithLength(p: Parser, length: nat): Parser {
    if length > MAX_PAYLOAD_LENGTH then p.(length := length, remain := 0, error := CLOSE_PAYLOAD_TOO_BIG)
    else p.(length := length, stage := MaskingKey, remain := 4)
  }

  /** One byte of input. */
  function Feed(p: Parser, b: Byte): (q: Parser)
    requires p.Valid() && !p.Stopped()
    ensures q.Valid()
  {
    match p.stage
    case FinAndOpcode =>
      p.(fin := b / 128 == 1, rsv := b / 16 % 8, opcode := b % 16, stage := MaskAndLen)
    case MaskAndLen =>
      var length := b % 128;
      if b / 128 == 0 then p.(error := CLOSE_PROTOCOL_ERROR)
      else if length < 126 then p.(length := length, stage := MaskingKey, remain := 4)
      else if length == 126 then p.(stage := PayloadLen16, remain := 2)
      else p.(stage := PayloadLen64, remain := 8)
    case PayloadLen16 =>
      var q := p.(raw := p.raw[2 - p.remain := b], remain := p.remain - 1);
      if q.remain == 0 then WithLength(q, BigEndian(q.raw[..2])) else q
    case PayloadLen64 =>
      var q := p.(raw := p.raw[8 - p.remain := b], remain := p.remain - 1);
      if q.remain == 0 then WithLength(q, BigEndian(q.raw)) else q
    case MaskingKey =>
      var q := p.(mask := p.mask[4 - p.remain := b], remain := p.remain - 1);
      if q.remain == 0 then q.(stage := if p.length != 0 then PayloadData else Done, remain := p.length) else q
    case PayloadData =>
      var index := p.length - p.remain;
      var q := p.(data := p.data + [Xor(b, p.mask[index % 4])], remain := p.remain - 1);
      if q.remain == 0 then q.(stage := Done) else q
  }

  /** The parser after as much of `buf` as it takes. */
  function Run(p: Parser, buf: seq<Byte>): (q: Parser)
    requires p.Valid()
    ensures q.Valid()
    decreases |buf|
  {
    if p.Stopped() || buf == [] then p else Run(Feed(p, buf[0]), buf[1..])
  }

  /** How many bytes of `buf` that is. */
  function Taken(p: Parser, buf: seq<Byte>): (n: nat)
    requires p.Valid()
    ensures n <= |buf|
    decreases |buf|
  {
    if p.Stopped() || buf == [] then 0 else 1 + Taken(Feed(p, buf[0]), buf[1..])
  }

  /** A call of the parser.  It goes on where the last one stopped; an earlier error is remembered, but
      nothing else comes of it here. */
  function Execute(p: Parser, buf: seq<Byte>): (q: Parser)
    requires p.Resumable()
    ensures q.Valid()
  {
    var q := Run(p.(error := 0), buf);
    if q.error != 0 then q else q.(error := p.error)
  }

  /** After an error the parser can be called again exactly if the error was not a length that is too
      big: then it has no byte of the length left to read, but still wants one. */
  lemma ResumableExactly(p: Parser, b: Byte)
    requires p.Valid() && !p.Stopped() && Feed(p, b).error != 0
    ensures Feed(p, b).Resumable() <==> Feed(p, b).error != CLOSE_PAYLOAD_TOO_BIG
  {
  }

  class WebSocketParser {
    var state_: Stage
    var fin_flag_: bool
    var rsv_flags_: nat
    var opcode_: nat
    var length_: nat
    var error_code_: nat
    var mask_: seq<Byte>
    var payload_raw_: seq<Byte>
    var payload_length_: nat
    var remain_bytes_: nat
    var data_: seq<Byte>

    ghost function View(): Parser
      reads this
    {
      Parser(state_, fin_flag_, rsv_flags_, opcode_, payload_raw_, payload_length_, mask_, remain_bytes_, data_, error_code_)
    }

    constructor ()
      ensures View().Valid() && !View().Stopped() && View() == View().Reset()
    {
      state_, fin_flag_, rsv_flags_, opcode_, length_ := FinAndOpcode, false, 0, 0, 0;
      error_code_, mask_, payload_raw_ := 0, [0, 0, 0, 0], [0, 0, 0, 0, 0, 0, 0, 0];
      payload_length_, remain_bytes_, data_ := 0, 1, [];
    }

    method Reset()
      modifies this
      ensures View() == old(View()).Reset()
    {
      state_ := FinAndOpcode;
      remain_bytes_ := 1;
      data_ := [];
    }

    predicate IsDone()
      reads this
    {
      state_ == Done
    }

    /** Take bytes until the frame is complete, the input is used up, or it is in error. */
    method ParserExecute(buffer: seq<Byte>) returns (parsed: nat)
      requires View().Resumable()
      modifies this
      ensures View() == Execute(old(View()), buffer)
      ensures var p := old(View()).(error := 0);
        parsed == if Run(p, buffer).error != 0 then 0 else Taken(p, buffer)
    {
      if state_ == Done {
        return 0;
      }
      ghost var p := View().(error := 0);
      for i := 0 to |buffer|
        invariant View().Resumable() && error_code_ == old(error_code_)
        invariant Run(View().(error := 0), buffer[i..]) == Run(p, buffer)
        invariant i + Taken(View().(error := 0), buffer[i..]) == Taken(p, buffer)
      {
        if state_ == Done {
          return i;
        }
        assert buffer[i..][0] == buffer[i] && buffer[i..][1..] == buffer[i + 1..];
        var failed := Step(buffer[i]);
        if failed {
          return 0;
        }
      }
      parsed := |buffer|;
    }

    /** One byte of a length of `size` bytes. */
    method ReadLength(size: nat, b: Byte) returns (failed: bool)
      requires View().Resumable()
      requires (state_ == PayloadLen16 && size == 2) || (state_ == PayloadLen64 && size == 8)
      modifies this
      ensures var q := Feed(old(View()).(error := 0), b);
        && (failed <==> q.error != 0)
        && View() == if failed then q else q.(error := old(error_code_))
    {
      hide BigEndian;
      payload_raw_ := payload_raw_[size - remain_bytes_ := b];
      remain_bytes_ := remain_bytes_ - 1;
      if remain_bytes_ == 0 {
        assert payload_raw_[..8] == payload_raw_;
        payload_length_ := BigEndian(payload_raw_[..size]);
        if payload_length_ > MAX_PAYLOAD_LENGTH {
          error_code_ := CLOSE_PAYLOAD_TOO_BIG;
          return true;
        }
        state_ := MaskingKey;
        remain_bytes_ := 4;
      }
      failed := false;
    }

    /** The body of the byte loop. */
    method Step(b: Byte) returns (failed: bool)
      requires View().Resumable() && state_ != Done
      modifies this
      ensures var q := Feed(old(View()).(error := 0), b);
        && (failed <==> q.error != 0)
        && View() == if failed then q else q.(error := old(error_code_))
    {
      hide BigEndian, Xor, WithLength;
      failed := false;
      match state_ {
        case FinAndOpcode =>
          fin_flag_ := b / 128 == 1;
          rsv_flags_ := b / 16 % 8;
          opcode_ := b % 16;
          state_ := MaskAndLen;
        case MaskAndLen =>
          length_ := b % 128;
          if b / 128 == 0 {
            error_code_ := CLOSE_PROTOCOL_ERROR;
            return true;
          }
          if length_ < 126 {
            payload_length_ := length_;  // below the limit: the program's check here is never taken
            state_ := MaskingKey;
            remain_bytes_ := 4;
          } else if length_ == 126 {
            state_ := PayloadLen16;
            remain_bytes_ := 2;
          } else {
            state_ := PayloadLen64;
            remain_bytes_ := 8;
          }
        case PayloadLen16 => failed := ReadLength(2, b);
        case PayloadLen64 => failed := ReadLength(8, b);
        case MaskingKey =>
          mask_ := mask_[4 - remain_bytes_ := b];
          remain_bytes_ := remain_bytes_ - 1;
          if remain_bytes_ == 0 {
            if payload_length_ != 0 {
              state_ := PayloadData;
            } else {
              state_ := Done;
            }
            remain_bytes_ := payload_length_;
          }
        case PayloadData =>
          var index := payload_length_ - remain_bytes_;
          data_ := data_ + [Xor(b, mask_[index % 4])];
          remain_bytes_ := remain_bytes_ - 1;
          if remain_bytes_ == 0 {
            state_ := Done;
          }
      }
    }
  }
}
