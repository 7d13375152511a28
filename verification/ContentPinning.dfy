/** Why the content hash pins the content of each object although it is taken over all contents with
    nothing between them: every content is one JSON object, possibly with white space around it, so
    the concatenation can be cut apart again. */
module ContentPinning {
  import opened Api
  import opened Resolver
  import opened Sequences

  const QUOTE: Byte := 0x22
  const BACKSLASH: Byte := 0x5c
  const OPEN: Byte := 0x7b
  const CLOSE: Byte := 0x7d

  /** Where a reader of JSON text stands: how many braces are open, whether it is inside a string, and
      whether the next byte of that string is escaped. */
  datatype Reader = Reader(depth: nat, inString: bool, escaped: bool)

  const START := Reader(0, false, false)

  function Read(r: Reader, b: Byte): Reader {
    if r.escaped then r.(escaped := false)
    else if r.inString then
      if b == BACKSLASH then r.(escaped := true) else if b == QUOTE then r.(inString := false) else r
    else if b == QUOTE then r.(inString := true)
    else if b == OPEN then r.(depth := r.depth + 1)
    else if b == CLOSE && r.depth > 0 then r.(depth := r.depth - 1)
    else r
  }

  /** The number of bytes up to and including the brace that closes the outermost open one; None if
      that brace never comes. */
  function Closing(r: Reader, text: Bytes): Option<nat>
    decreases text
  {
    if text == [] then None
    else
      var next := Read(r, text[0]);
      if next.depth == 0 then Some(1)
      else
        var k := Closing(next, text[1..]);
        if k.Some? then Some(k.value + 1) else None
  }

  /** One brace-delimited text: it starts with a brace, and its last byte closes that brace. */
  predicate ObjectText(text: Bytes) {
    text != [] && text[0] == OPEN && Closing(START, text) == Some(|text|)
  }

  predicate IsSpace(b: Byte) {
    b in {0x20, 0x09, 0x0a, 0x0d}
  }

  function SkipSpace(text: Bytes): (r: Bytes)
    ensures |r| <= |text|
    ensures r != [] ==> !IsSpace(r[0])
  {
    if text != [] && IsSpace(text[0]) then SkipSpace(text[1..]) else text
  }

  /** The first brace-delimited text after any white space, and what follows it. */
  function TakeText(text: Bytes): (r: Option<(Bytes, Bytes)>)
    ensures r.Some? ==> |r.value.1| < |text|
  {
    var t := SkipSpace(text);
    var k := Closing(START, t);
    if t == [] || t[0] != OPEN || k.None? then None
    else ClosingInRange(START, t); Some((t[..k.value], t[k.value..]))
  }

  lemma {:induction false} ClosingInRange(r: Reader, text: Bytes)
    ensures Closing(r, text).Some? ==> 0 < Closing(r, text).value <= |text|
    decreases text
  {
    if text == [] {
    } else {
      ClosingInRange(Read(r, text[0]), text[1..]);
    }
  }

  /** Cuts a concatenation into its brace-delimited texts. */
  function Cut(text: Bytes): seq<Bytes>
    decreases |text|
  {
    var n := TakeText(text);
    if n.None? then [] else [n.value.0] + Cut(n.value.1)
  }

  /** What a JSON decoder accepts as an object: one such text with nothing but white space around it. */
  predicate Content(raw: Bytes) {
    var n := TakeText(raw);
    n.Some? && ObjectText(n.value.0) && SkipSpace(n.value.1) == []
  }

  function Core(raw: Bytes): Bytes
    requires Content(raw)
  {
    TakeText(raw).value.0
  }

  predicate AllContents(raws: seq<Bytes>) {
    forall k :: 0 <= k < |raws| ==> Content(raws[k])
  }

  function Cores(raws: seq<Bytes>): seq<Bytes>
    requires AllContents(raws)
  {
    seq(|raws|, k requires 0 <= k < |raws| => Core(raws[k]))
  }

  lemma {:induction false} ClosingIgnoresRest(r: Reader, text: Bytes, rest: Bytes)
    requires Closing(r, text).Some?
    ensures Closing(r, text + rest) == Closing(r, text)
    decreases text
  {
    assert (text + rest)[1..] == text[1..] + rest;
    if Read(r, text[0]).depth != 0 {
      ClosingIgnoresRest(Read(r, text[0]), text[1..], rest);
    }
  }

  lemma {:induction false} SkipSpaceThrough(a: Bytes, b: Bytes)
    ensures SkipSpace(a + b) == if SkipSpace(a) == [] then SkipSpace(b) else SkipSpace(a) + b
  {
    if a == [] {
      assert a + b == b;
    } else if IsSpace(a[0]) {
      assert (a + b)[1..] == a[1..] + b;
      SkipSpaceThrough(a[1..], b);
    }
  }

  lemma {:induction false} TakeFirst(raw: Bytes, rest: Bytes)
    requires Content(raw)
    ensures TakeText(raw + rest) == Some((Core(raw), TakeText(raw).value.1 + rest))
  {
    hide Closing, SkipSpace, TakeText, Content;
    var t := SkipSpace(raw);
    ContentStarts(raw, t);
    SkipSpaceThrough(raw, rest);
    ClosingIgnoresRest(START, t, rest);
    TakeSplits(raw, t);
    TakeSplits(raw + rest, t + rest);
    SplitWithRest(t, Closing(START, t).value, rest);
  }

  lemma {:induction false} SplitWithRest(t: Bytes, k: nat, rest: Bytes)
    requires k <= |t|
    ensures (t + rest)[..k] == t[..k] && (t + rest)[k..] == t[k..] + rest
  {
  }

  lemma {:induction false} ContentStarts(raw: Bytes, t: Bytes)
    requires Content(raw) && t == SkipSpace(raw)
    ensures t != [] && t[0] == OPEN && Closing(START, t).Some?
  {
  }

  lemma {:induction false} TakeSplits(text: Bytes, t: Bytes)
    requires t == SkipSpace(text) && t != [] && t[0] == OPEN && Closing(START, t).Some?
    ensures 0 < Closing(START, t).value <= |t|
    ensures TakeText(text) == Some((t[..Closing(START, t).value], t[Closing(START, t).value..]))
  {
    ClosingInRange(START, t);
  }

  lemma {:induction false} CutSkipsSpace(space: Bytes, rest: Bytes)
    requires SkipSpace(space) == []
    ensures Cut(space + rest) == Cut(rest)
  {
    SkipSpaceThrough(space, rest);
  }

  lemma {:induction false} ConcatFirst(raws: seq<Bytes>)
    requires raws != []
    ensures Concat(raws) == raws[0] + Concat(raws[1..])
  {
    var init := raws[..|raws| - 1];
    if init == [] {
      assert Concat(raws) == Concat(init) + raws[0];
    } else {
      ConcatFirst(init);
      assert init[1..] == raws[1..][..|raws| - 2];
      Associates(raws[0], Concat(init[1..]), raws[|raws| - 1]);
    }
  }

  /** Cutting the hashed bytes gives back the texts of the objects, one by one. */
  lemma {:induction false} CutUndoesConcat(raws: seq<Bytes>)
    requires AllContents(raws)
    ensures Cut(Concat(raws)) == Cores(raws)
    decreases |raws|
  {
    if raws == [] {
      assert Cut([]) == [];
    } else {
      ConcatFirst(raws);
      TakeFirst(raws[0], Concat(raws[1..]));
      CutSkipsSpace(TakeText(raws[0]).value.1, Concat(raws[1..]));
      CutUndoesConcat(raws[1..]);
      assert Cores(raws) == [Core(raws[0])] + Cores(raws[1..]);
    }
  }

  /** The hash, taken as injective on its input, of two lists of contents agrees only if the lists hold
      the same object texts in the same order; without white space around them, only if they are the
      same lists. */
  lemma {:induction false} SameHashSameObjects(a: seq<Bytes>, b: seq<Bytes>, digest: Bytes -> string)
    requires AllContents(a) && AllContents(b)
    requires digest(Concat(a)) == digest(Concat(b)) ==> Concat(a) == Concat(b)
    requires digest(Concat(a)) == digest(Concat(b))
    ensures Cores(a) == Cores(b)
    ensures (forall k :: 0 <= k < |a| ==> ObjectText(a[k])) && (forall k :: 0 <= k < |b| ==> ObjectText(b[k])) ==> a == b
  {
    CutUndoesConcat(a);
    CutUndoesConcat(b);
    assert |a| == |Cores(a)| == |Cores(b)| == |b|;
    forall k | 0 <= k < |a| && ObjectText(a[k]) && ObjectText(b[k]) ensures a[k] == b[k] {
      CoreOfText(a[k]);
      CoreOfText(b[k]);
      assert Cores(a)[k] == Cores(b)[k];
    }
  }

  lemma {:induction false} CoreOfText(text: Bytes)
    requires ObjectText(text)
    ensures Content(text) && Core(text) == text
  {
    assert SkipSpace(text) == text;
    Whole(text);
  }

  // ---------- Every JSON object is such a text ----------

  /** A byte of a JSON string between its quotes. */
  datatype StringByte = Literal(b: Byte) | Escaped(b: Byte)

  /** JSON text as far as braces are concerned: bytes outside strings that are no braces (white space,
      commas, colons, brackets, numbers, words), strings, and objects. */
  datatype Piece = Plain(b: Byte) | Quoted(chars: seq<StringByte>) | Braced(pieces: seq<Piece>)

  function RenderString(chars: seq<StringByte>): Bytes {
    if chars == [] then [QUOTE]
    else (match chars[0] case Literal(b) => [b] case Escaped(b) => [BACKSLASH, b]) + RenderString(chars[1..])
  }

  function Render(p: Piece): Bytes
    decreases p, 0
  {
    match p
    case Plain(b) => [b]
    case Quoted(chars) => [QUOTE] + RenderString(chars)
    case Braced(ps) => [OPEN] + RenderAll(ps)
  }

  /** The pieces and the brace that closes them. */
  function RenderAll(ps: seq<Piece>): Bytes
    decreases ps, 1
  {
    if ps == [] then [CLOSE] else Render(ps[0]) + RenderAll(ps[1..])
  }

  predicate ValidString(chars: seq<StringByte>) {
    forall k :: 0 <= k < |chars| && chars[k].Literal? ==> chars[k].b !in {QUOTE, BACKSLASH}
  }

  predicate Valid(p: Piece)
    decreases p
  {
    match p
    case Plain(b) => b !in {QUOTE, OPEN, CLOSE}
    case Quoted(chars) => ValidString(chars)
    case Braced(ps) => forall q | q in ps :: Valid(q)
  }

  function Shift(k: Option<nat>, n: nat): Option<nat> {
    if k.Some? then Some(k.value + n) else None
  }

  lemma {:induction false} StepInside(r: Reader, b: Byte, rest: Bytes)
    requires Read(r, b).depth > 0
    ensures Closing(r, [b] + rest) == Shift(Closing(Read(r, b), rest), 1)
  {
    assert ([b] + rest)[1..] == rest;
  }

  lemma {:induction false} ThroughString(depth: nat, chars: seq<StringByte>, rest: Bytes)
    requires depth > 0 && ValidString(chars)
    ensures Closing(Reader(depth, true, false), RenderString(chars) + rest)
            == Shift(Closing(Reader(depth, false, false), rest), |RenderString(chars)|)
  {
    var r := Reader(depth, true, false);
    if chars == [] {
      StepInside(r, QUOTE, rest);
    } else {
      var tail := RenderString(chars[1..]);
      ThroughString(depth, chars[1..], rest);
      match chars[0]
      case Literal(b) =>
        Associates([b], tail, rest);
        StepInside(r, b, tail + rest);
      case Escaped(b) =>
        assert RenderString(chars) + rest == [BACKSLASH] + ([b] + (tail + rest));
        StepInside(r, BACKSLASH, [b] + (tail + rest));
        StepInside(r.(escaped := true), b, tail + rest);
    }
  }

  lemma {:induction false} ThroughPiece(depth: nat, p: Piece, rest: Bytes)
    requires depth > 0 && Valid(p)
    ensures Closing(Reader(depth, false, false), Render(p) + rest)
            == Shift(Closing(Reader(depth, false, false), rest), |Render(p)|)
    decreases p, 0
  {
    var r := Reader(depth, false, false);
    match p
    case Plain(b) =>
      StepInside(r, b, rest);
    case Quoted(chars) =>
      Associates([QUOTE], RenderString(chars), rest);
      StepInside(r, QUOTE, RenderString(chars) + rest);
      ThroughString(depth, chars, rest);
    case Braced(ps) =>
      Associates([OPEN], RenderAll(ps), rest);
      StepInside(r, OPEN, RenderAll(ps) + rest);
      ThroughPieces(depth, ps, rest);
  }

  lemma {:induction false} ThroughPieces(depth: nat, ps: seq<Piece>, rest: Bytes)
    requires forall q | q in ps :: Valid(q)
    ensures Closing(Reader(depth + 1, false, false), RenderAll(ps) + rest)
            == if depth == 0 then Some(|RenderAll(ps)|)
               else Shift(Closing(Reader(depth, false, false), rest), |RenderAll(ps)|)
    decreases ps, 1
  {
    var r := Reader(depth + 1, false, false);
    if ps == [] {
      if depth > 0 {
        StepInside(r, CLOSE, rest);
      }
    } else {
      Associates(Render(ps[0]), RenderAll(ps[1..]), rest);
      ThroughPiece(depth + 1, ps[0], RenderAll(ps[1..]) + rest);
      ThroughPieces(depth, ps[1..], rest);
    }
  }

  /** Every JSON object, whatever its strings contain, is one brace-delimited text. */
  lemma {:induction false} JsonObjectIsOneText(ps: seq<Piece>)
    requires forall q | q in ps :: Valid(q)
    ensures ObjectText(Render(Braced(ps)))
  {
    hide RenderAll, Closing;
    var body := RenderAll(ps);
    ThroughPieces(0, ps, []);
    assert body + [] == body;
    StepInside(START, OPEN, body);
  }

  predicate AllSpace(text: Bytes) {
    forall k :: 0 <= k < |text| ==> IsSpace(text[k])
  }

  /** A JSON object with white space around it. */
  ghost predicate JsonObject(raw: Bytes) {
    exists before: Bytes, ps: seq<Piece>, after: Bytes ::
      AllSpace(before) && AllSpace(after) && (forall q | q in ps :: Valid(q)) && raw == before + Render(Braced(ps)) + after
  }

  lemma {:induction false} SpaceSkipped(text: Bytes)
    requires AllSpace(text)
    ensures SkipSpace(text) == []
  {
    if text == [] {
    } else {
      SpaceSkipped(text[1..]);
    }
  }

  lemma {:induction false} TextTaken(before: Bytes, text: Bytes, after: Bytes)
    requires AllSpace(before) && ObjectText(text)
    ensures TakeText(before + text + after) == Some((text, after))
  {
    hide Closing, Read;
    var rest := text + after;
    Associates(before, text, after);
    SpaceSkipped(before);
    SkipSpaceThrough(before, rest);
    assert rest != [] && rest[0] == OPEN;
    assert SkipSpace(rest) == rest;
    ClosingIgnoresRest(START, text, after);
    TakeSplits(before + rest, rest);
    SplitWithRest(text, |text|, after);
    Whole(text);
    assert text[|text|..] == [];
  }

  /** So the decoder's texts can be cut apart: every JSON object, with white space around it, is one text
      and nothing else. */
  lemma {:induction false} JsonObjectIsContent(raw: Bytes)
    requires JsonObject(raw)
    ensures Content(raw)
  {
    hide TakeText, Render;
    var before, ps, after :|
      AllSpace(before) && AllSpace(after) && (forall q | q in ps :: Valid(q)) && raw == before + Render(Braced(ps)) + after;
    JsonObjectIsOneText(ps);
    TextTaken(before, Render(Braced(ps)), after);
    SpaceSkipped(after);
  }
}
