/** What bios0x0c makes of received bytes before it stores them: shift codes of a 7-bit line, and DEL. */
module SerialShift {
  import opened Bytes
  import opened Chunks
  import opened SerialLine

  /** What the BIOS work area says of received bytes: whether SI and SO shift them (bit 0x80 of
      MEMB_RS_S_FLAG), whether they are shifted out now (bit 0x10), and whether DEL counts as 0. */
  datatype Shift = Shift(active: bool, out: bool, del: bool)

  const SO := 0x0e
  const SI := 0x0f

  predicate IsShiftCode(sh: Shift, data: byte) { sh.active && (data == SO || data == SI) }

  function ShiftAfter(sh: Shift, data: byte): Shift
  {
    if IsShiftCode(sh, data) then sh.(out := data == SO) else sh
  }

  /** The byte that is stored for one that is not a shift code. */
  function Translated(sh: Shift, data: byte): byte
  {
    var d := if !sh.active || data < 0x20 then data as int else if sh.out then data % 128 + 128 else data % 128;
    if sh.del && d % 128 == 0x7f then 0 else d
  }

  /** The line with the work area. */
  datatype Port = Port(line: Line, shift: Shift)

  datatype Input = Byte(data: byte, status: byte) | Take

  /** bios0x0c on a received byte, or a read. A full ring looks at no byte. */
  function Handle(p: Port, input: Input): Port
  {
    match input
    case Take => p.(line := Get(p.line))
    case Byte(data, status) =>
      if p.line.full then p.(line := Put(p.line, data as int * 256 + status as int))
      else if IsShiftCode(p.shift, data) then p.(shift := ShiftAfter(p.shift, data))
      else p.(line := Put(p.line, Translated(p.shift, data) as int * 256 + status as int))
  }

  function HandleAll(p: Port, inputs: seq<Input>, n: nat): Port
    requires n <= |inputs|
  {
    if n == 0 then p else Handle(HandleAll(p, inputs, n - 1), inputs[n - 1])
  }

  /** What one input means to the line: a step, or nothing for a shift code. */
  function Meaning(p: Port, input: Input): seq<Step>
  {
    match input
    case Take => [Read]
    case Byte(data, status) =>
      if p.line.full then [Arrive(data as int * 256 + status as int)]
      else if IsShiftCode(p.shift, data) then []
      else [Arrive(Translated(p.shift, data) as int * 256 + status as int)]
  }

  function StepsOf(p: Port, inputs: seq<Input>, n: nat): (steps: seq<Step>)
    requires n <= |inputs|
    ensures |steps| <= n
  {
    if n == 0 then [] else StepsOf(p, inputs, n - 1) + Meaning(HandleAll(p, inputs, n - 1), inputs[n - 1])
  }

  lemma {:induction false} RunOfMore(s: Line, steps: seq<Step>, more: seq<Step>, n: nat)
    requires n <= |steps|
    ensures Run(s, steps + more, n) == Run(s, steps, n) && Delivered(s, steps + more, n) == Delivered(s, steps, n)
  {
    hide Do;
    if n > 0 { RunOfMore(s, steps, more, n - 1); }
  }

  /** To the line, received bytes are steps of the kind the laws above are about. */
  lemma {:induction false} InputsAreSteps(p: Port, inputs: seq<Input>, n: nat)
    requires n <= |inputs|
    ensures HandleAll(p, inputs, n).line == Run(p.line, StepsOf(p, inputs, n), |StepsOf(p, inputs, n)|)
  {
    hide Put, Get, Translated, IsShiftCode;
    if n > 0 {
      InputsAreSteps(p, inputs, n - 1);
      var steps, q := StepsOf(p, inputs, n - 1), HandleAll(p, inputs, n - 1);
      var more := Meaning(q, inputs[n - 1]);
      RunOfMore(p.line, steps, more, |steps|);
      if more == [] { assert steps + more == steps; }
    }
  }

  lemma NothingDelivered(p: Port, inputs: seq<Input>)
    ensures Delivered(p.line, StepsOf(p, inputs, 0), |StepsOf(p, inputs, 0)|) == []
  {
  }

  /** The words that one more input brings out. */
  lemma DeliveredStep(p: Port, inputs: seq<Input>, n: nat)
    requires n < |inputs|
    ensures var steps, more, q := StepsOf(p, inputs, n), StepsOf(p, inputs, n + 1), HandleAll(p, inputs, n).line.queue;
      Delivered(p.line, more, |more|)
        == Delivered(p.line, steps, |steps|) + if inputs[n].Take? && q != [] then [q[0]] else []
  {
    hide HandleAll, Run, Translated, IsShiftCode;
    var steps := StepsOf(p, inputs, n);
    var more := Meaning(HandleAll(p, inputs, n), inputs[n]);
    InputsAreSteps(p, inputs, n);
    RunOfMore(p.line, steps, more, |steps|);
    if more == [] { assert steps + more == steps; }
  }

  // ---------------------------------------------------------------- which word is stored

  /** Of a byte that is not a shift code the low seven bits are stored, under the high bit of the shift the line is
      in, or its own where shift codes mean nothing to it; but 0 for DEL where DEL counts as 0. */
  lemma StoredBits(sh: Shift, data: byte)
    ensures var r := Translated(sh, data) as int;
      if sh.del && data % 128 == 0x7f then r == 0
      else r % 128 == data as int % 128 && (r >= 128 <==> if sh.active && data >= 0x20 then sh.out else data >= 128)
  {
  }

  /** Where shift codes count, 0x0e shifts out and 0x0f shifts in; nothing else is one. */
  lemma ShiftCodes(sh: Shift, data: byte)
    ensures IsShiftCode(sh, data) <==> sh.active && (data == 0x0e || data == 0x0f)
    ensures var r := ShiftAfter(sh, data);
      r == sh.(out := r.out) && (r.out <==> if sh.active && data == 0x0e then true
                                            else if sh.active && data == 0x0f then false else sh.out)
  {
  }

  /** The words read so far. */
  function ReadOut(p: Port, inputs: seq<Input>, n: nat): seq<nat>
    requires n <= |inputs|
  {
    var steps := StepsOf(p, inputs, n);
    Delivered(p.line, steps, |steps|)
  }

  /** The word of a byte received on a line without shift codes; none for a read. */
  function PlainWord(input: Input, del: bool): seq<nat>
  {
    match input
    case Take => []
    case Byte(data, status) =>
      [(if del && (data == 0x7f || data == 0xff) then 0 else data as int) * 256 + status as int]
  }

  function PlainWords(inputs: seq<Input>, n: nat, del: bool): seq<nat>
    requires n <= |inputs|
  {
    if n == 0 then [] else PlainWords(inputs, n - 1, del) + PlainWord(inputs[n - 1], del)
  }

  lemma PlainIsStored(sh: Shift, data: byte)
    requires !sh.active
    ensures Translated(sh, data) as int == if sh.del && (data == 0x7f || data == 0xff) then 0 else data as int
  {
    StoredBits(sh, data);
    hide Translated;
  }

  lemma PutQueue(s: Line, w: nat)
    ensures Put(s, w).queue == if s.full then s.queue else s.queue + [w]
    ensures s.full ==> Put(s, w).full
  {
  }

  lemma GetQueue(s: Line)
    ensures Get(s).queue == (if s.queue == [] then [] else s.queue[1..]) && Get(s).full == s.full
  {
  }

  /** On such a line a byte adds its word to the queue unless the ring has been full; a read takes one. */
  lemma PlainHandle(s: Port, input: Input)
    requires !s.shift.active
    ensures var t := Handle(s, input);
      && t.shift == s.shift && (s.line.full ==> t.line.full)
      && (if input.Take? then if s.line.queue == [] then [] else [s.line.queue[0]] else []) + t.line.queue
        == s.line.queue + if s.line.full then [] else PlainWord(input, s.shift.del)
  {
    hide Put, Get, Translated;
    match input
    case Take => GetQueue(s.line);
    case Byte(data, status) =>
      PlainIsStored(s.shift, data);
      PutQueue(s.line, data as int * 256 + status as int);
      PutQueue(s.line, Translated(s.shift, data) as int * 256 + status as int);
  }

  lemma PlainStep(p: Port, inputs: seq<Input>, n: nat)
    requires n < |inputs| && !HandleAll(p, inputs, n).shift.active
    ensures var s, t := HandleAll(p, inputs, n), HandleAll(p, inputs, n + 1);
      && t.shift == s.shift && (s.line.full ==> t.line.full)
      && ReadOut(p, inputs, n + 1) + t.line.queue == ReadOut(p, inputs, n)
        + (s.line.queue + if s.line.full then [] else PlainWord(inputs[n], s.shift.del))
  {
    var s := HandleAll(p, inputs, n);
    DeliveredStep(p, inputs, n);
    PlainHandle(s, inputs[n]);
    hide Delivered, StepsOf, Handle, PlainWord;
    JoinAgain(ReadOut(p, inputs, n), if inputs[n].Take? && s.line.queue != [] then [s.line.queue[0]] else [],
              Handle(s, inputs[n]).line.queue);
  }

  /** On a line without shift codes, whatever the interleaving: until the ring has been full, the words read and
      those still in it are the words of all bytes received, in order; from then on no more are. */
  lemma {:induction false} PlainLine(p: Port, inputs: seq<Input>, n: nat)
    requires n <= |inputs| && !p.shift.active
    ensures var s, all := HandleAll(p, inputs, n), PlainWords(inputs, n, p.shift.del);
      && s.shift == p.shift && (p.line.full ==> s.line.full)
      && ReadOut(p, inputs, n) + s.line.queue <= p.line.queue + all
      && (!s.line.full ==> ReadOut(p, inputs, n) + s.line.queue == p.line.queue + all)
    ensures n > 0 ==>
      var s, t := HandleAll(p, inputs, n - 1), HandleAll(p, inputs, n);
      var before, after := ReadOut(p, inputs, n - 1) + s.line.queue, ReadOut(p, inputs, n) + t.line.queue;
      after == before + if s.line.full then [] else PlainWord(inputs[n - 1], p.shift.del)
  {
    hide Handle, PlainWord, ReadOut;
    if n > 0 {
      PlainLine(p, inputs, n - 1);
      PlainStep(p, inputs, n - 1);
      var s := HandleAll(p, inputs, n - 1);
      var more := PlainWord(inputs[n - 1], p.shift.del);
      JoinAgain(ReadOut(p, inputs, n - 1), s.line.queue, if s.line.full then [] else more);
      JoinAgain(p.line.queue, PlainWords(inputs, n - 1, p.shift.del), more);
    } else {
      NothingRead(p, inputs);
      assert p.line.queue + [] == p.line.queue;
    }
  }

  lemma NothingRead(p: Port, inputs: seq<Input>)
    ensures ReadOut(p, inputs, 0) == [] && ReadOut(p, inputs, 0) + p.line.queue == p.line.queue
  {
    NothingDelivered(p, inputs);
  }

  /** What a sender on a 7-bit line sends for a byte, given the shift it is in. */
  function Encoded(out: bool, c: byte): seq<byte>
  {
    if c < 0x20 || (c >= 0x80) == out then [c % 128] else [if out then SI else SO, c % 128]
  }

  /** Bytes that a 7-bit line can carry: neither shift codes nor 8-bit control codes. */
  predicate Sendable(c: byte) { c != SO && c != SI && c % 128 >= (if c < 0x80 then 0 else 0x20) }

  function OutAfter(out: bool, c: byte): bool { if c < 0x20 then out else c >= 0x80 }

  function TranslateAll(sh: Shift, codes: seq<byte>, n: nat): seq<byte>
    requires n <= |codes|
  {
    if n == 0 then [] else
      var before := ShiftAll(sh, codes, n - 1);
      TranslateAll(sh, codes, n - 1)
      + if IsShiftCode(before, codes[n - 1]) then [] else [Translated(before, codes[n - 1])]
  }

  function ShiftAll(sh: Shift, codes: seq<byte>, n: nat): Shift
    requires n <= |codes|
  {
    if n == 0 then sh else ShiftAfter(ShiftAll(sh, codes, n - 1), codes[n - 1])
  }

  /** What a whole stretch of codes stands for, and the shift behind it. */
  function Text(sh: Shift, codes: seq<byte>): seq<byte> { TranslateAll(sh, codes, |codes|) }

  function Behind(sh: Shift, codes: seq<byte>): Shift { ShiftAll(sh, codes, |codes|) }

  /** The codes for one byte bring that byte out, and leave both ends in the same shift. */
  lemma EncodedComesBack(out: bool, c: byte)
    requires Sendable(c)
    ensures var codes, sh := Encoded(out, c), Shift(true, out, false);
      Text(sh, codes) == [c] && Behind(sh, codes) == Shift(true, OutAfter(out, c), false)
  {
    var codes, sh := Encoded(out, c), Shift(true, out, false);
    assert ShiftAll(sh, codes, 0) == sh && TranslateAll(sh, codes, 0) == [];
    assert ShiftAll(sh, codes, 1) == ShiftAfter(sh, codes[0]);
    if |codes| == 2 {
      assert codes[1] == c % 128 && !IsShiftCode(sh, codes[1]);
      assert TranslateAll(sh, codes, 1) == [];
    }
  }

  lemma TextJoin(sh: Shift, a: seq<byte>, b: seq<byte>)
    ensures Behind(sh, a + b) == Behind(Behind(sh, a), b) && Text(sh, a + b) == Text(sh, a) + Text(Behind(sh, a), b)
  {
    hide TranslateAll, ShiftAll;
    TranslateJoin(sh, a, b, |b|);
  }

  lemma {:induction false} TranslateJoin(sh: Shift, a: seq<byte>, b: seq<byte>, n: nat)
    requires n <= |b|
    ensures ShiftAll(sh, a + b, |a| + n) == ShiftAll(ShiftAll(sh, a, |a|), b, n)
    ensures TranslateAll(sh, a + b, |a| + n) == TranslateAll(sh, a, |a|) + TranslateAll(ShiftAll(sh, a, |a|), b, n)
  {
    hide ShiftAfter, IsShiftCode, Translated;
    if n > 0 {
      TranslateJoin(sh, a, b, n - 1);
      assert (a + b)[|a| + n - 1] == b[n - 1];
    } else {
      TranslatePrefix(sh, a, b, |a|);
    }
  }

  lemma {:induction false} TranslatePrefix(sh: Shift, a: seq<byte>, b: seq<byte>, n: nat)
    requires n <= |a|
    ensures ShiftAll(sh, a + b, n) == ShiftAll(sh, a, n) && TranslateAll(sh, a + b, n) == TranslateAll(sh, a, n)
  {
    hide ShiftAfter, IsShiftCode, Translated;
    if n > 0 { TranslatePrefix(sh, a, b, n - 1); }
  }

  /** The first n bytes of a text as they are sent, and the shift the sender is in then. */
  function Sent(out: bool, text: seq<byte>, n: nat): seq<byte>
    requires n <= |text|
  {
    if n == 0 then [] else Sent(out, text, n - 1) + Encoded(SentOut(out, text, n - 1), text[n - 1])
  }

  function SentOut(out: bool, text: seq<byte>, n: nat): bool
    requires n <= |text|
  {
    if n == 0 then out else OutAfter(SentOut(out, text, n - 1), text[n - 1])
  }

  /** Text sent over a 7-bit line with shift codes comes out as it was. */
  lemma {:induction false} ShiftedTextComesBack(out: bool, text: seq<byte>, n: nat)
    requires n <= |text| && forall i :: 0 <= i < n ==> Sendable(text[i])
    ensures var codes, sh := Sent(out, text, n), Shift(true, out, false);
      Text(sh, codes) == text[..n] && Behind(sh, codes) == Shift(true, SentOut(out, text, n), false)
  {
    if n > 0 {
      hide Encoded, OutAfter, Sendable, Text, Behind;
      var sh, before := Shift(true, out, false), Sent(out, text, n - 1);
      ShiftedTextComesBack(out, text, n - 1);
      EncodedComesBack(SentOut(out, text, n - 1), text[n - 1]);
      TextJoin(sh, before, Encoded(SentOut(out, text, n - 1), text[n - 1]));
      OneMore(text, n);
    }
  }

  // ---------------------------------------------------------------- the line with shift codes

  /** The bytes received, without the reads. */
  function Codes(inputs: seq<Input>, n: nat): seq<byte>
    requires n <= |inputs|
  {
    if n == 0 then [] else Codes(inputs, n - 1) + if inputs[n - 1].Byte? then [inputs[n - 1].data] else []
  }

  /** The data bytes of words. */
  function HighBytes(words: seq<nat>): seq<nat> { seq(|words|, i requires 0 <= i < |words| => words[i] / 256) }

  lemma HighBytesJoin(a: seq<nat>, b: seq<nat>)
    ensures HighBytes(a + b) == HighBytes(a) + HighBytes(b)
  {
  }

  lemma HighByteOf(data: nat, status: nat)
    requires status < 256
    ensures HighBytes([data * 256 + status]) == [data]
  {
  }

  /** One more input adds at most its translated byte to what has been read or is in the ring. */
  lemma ShiftHandle(s: Port, input: Input)
    requires !Handle(s, input).line.full
    ensures var t := Handle(s, input);
      var words := (if input.Take? && s.line.queue != [] then [s.line.queue[0]] else []) + t.line.queue;
      && !s.line.full
      && (if input.Take? || IsShiftCode(s.shift, input.data) then words == s.line.queue
          else words == s.line.queue + [Translated(s.shift, input.data) as int * 256 + input.status as int])
      && t.shift == if input.Take? then s.shift else ShiftAfter(s.shift, input.data)
  {
    hide Put, Get, Translated;
    match input
    case Take => GetQueue(s.line);
    case Byte(data, status) =>
      PutQueue(s.line, data as int * 256 + status as int);
      PutQueue(s.line, Translated(s.shift, data) as int * 256 + status as int);
  }

  lemma TextOfMore(sh: Shift, codes: seq<byte>, data: byte)
    ensures Behind(sh, codes + [data]) == ShiftAfter(Behind(sh, codes), data)
    ensures Text(sh, codes + [data])
      == Text(sh, codes) + if IsShiftCode(Behind(sh, codes), data) then [] else [Translated(Behind(sh, codes), data)]
  {
    TranslatePrefix(sh, codes, [data], |codes|);
    hide ShiftAfter, IsShiftCode, Translated;
  }

  /** Until the ring is full, the data bytes read and those still in it are the text that the bytes received
      stand for, whatever the interleaving. */
  lemma {:induction false} ShiftedLine(p: Port, inputs: seq<Input>, n: nat)
    requires n <= |inputs| && p.line.queue == [] && !HandleAll(p, inputs, n).line.full
    ensures var s, codes := HandleAll(p, inputs, n), Codes(inputs, n);
      s.shift == Behind(p.shift, codes) && HighBytes(ReadOut(p, inputs, n) + s.line.queue) == Text(p.shift, codes)
  {
    if n == 0 {
      NothingRead(p, inputs);
    } else {
      hide Handle, Translated, IsShiftCode, ShiftAfter, Text, Behind, HighBytes, Delivered, StepsOf;
      var s, input := HandleAll(p, inputs, n - 1), inputs[n - 1];
      ShiftHandle(s, input);
      ShiftedLine(p, inputs, n - 1);
      DeliveredStep(p, inputs, n - 1);
      var first := if input.Take? && s.line.queue != [] then [s.line.queue[0]] else [];
      JoinAgain(ReadOut(p, inputs, n - 1), first, Handle(s, input).line.queue);
      ShiftedWords(p.shift, Codes(inputs, n - 1), ReadOut(p, inputs, n - 1), s, input,
                   first + Handle(s, input).line.queue);
    }
  }

  lemma ShiftedWords(sh: Shift, codes: seq<byte>, read: seq<nat>, s: Port, input: Input, words: seq<nat>)
    requires s.shift == Behind(sh, codes) && HighBytes(read + s.line.queue) == Text(sh, codes)
    requires (if input.Take? || IsShiftCode(s.shift, input.data) then words == s.line.queue
      else words == s.line.queue + [Translated(s.shift, input.data) as int * 256 + input.status as int])
    ensures HighBytes(read + words) == Text(sh, codes + if input.Byte? then [input.data] else [])
    ensures Behind(sh, codes + if input.Byte? then [input.data] else [])
      == if input.Take? then s.shift else ShiftAfter(s.shift, input.data)
  {
    hide Translated, IsShiftCode, ShiftAfter, Text, Behind, HighBytes;
    if input.Byte? {
      TextOfMore(sh, codes, input.data);
      var more := [Translated(s.shift, input.data) as int * 256 + input.status as int];
      HighByteOf(Translated(s.shift, input.data), input.status);
      JoinAgain(read, s.line.queue, more);
      HighBytesJoin(read + s.line.queue, more);
    } else {
      assert codes + [] == codes;
    }
  }

  /** So text sent with shift codes over a 7-bit line is what is read. */
  lemma TextArrives(p: Port, inputs: seq<Input>, text: seq<byte>)
    requires p.line.queue == [] && p.shift.active && !p.shift.del && !HandleAll(p, inputs, |inputs|).line.full
    requires forall i :: 0 <= i < |text| ==> Sendable(text[i])
    requires Codes(inputs, |inputs|) == Sent(p.shift.out, text, |text|)
    ensures HighBytes(ReadOut(p, inputs, |inputs|) + HandleAll(p, inputs, |inputs|).line.queue) == text
  {
    hide HandleAll, ReadOut, HighBytes, Sent, SentOut, Text, Behind, Sendable, Codes, StepsOf;
    assert text[..|text|] == text;
    ShiftedLine(p, inputs, |inputs|);
    ShiftedTextComesBack(p.shift.out, text, |text|);
    assert p.shift == Shift(true, p.shift.out, false);
  }
}
