/**
 * The response body of fetchCoExpressions, written piece by piece as results
 * arrive. Each result goes through json.Encoder.Encode, which writes the
 * object and a newline, or writes nothing and fails when a number is NaN or
 * infinite (JSON has no such numbers). The source writes the comma before it
 * encodes (FrameAsWritten, WriteResponse), so a failed encoding leaves a stray
 * comma; Frame and WriteResponseCorrected write a comma only between objects.
 */
module Framing {
  import opened Types
  import opened Results

  /** The JSON text of a finite float64 (Go's encoder chooses the digits); kept abstract. */
  type FormatNumber = Float64 -> string

  /** Not NaN and not an infinity: the binary64 exponent field is not all ones. */
  predicate IsFinite(x: Float64) {
    (x >> 52) & 0x7FF != 0x7FF
  }

  /** Text Go's JSON encoder writes inside a string unchanged: printable ASCII except the characters it escapes. */
  predicate PlainText(s: string) {
    forall i :: 0 <= i < |s| ==> ' ' <= s[i] <= '~' && s[i] !in {'"', '\\', '<', '>', '&'}
  }

  const IdPrefix: string := "{\"geneticEntityId\":\""
  const SpearmanKey: string := "\",\"spearmansCorrelation\":"
  const PValueKey: string := ",\"pValue\":"

  /** Encoder output has the shape of one object: it opens with '{' and ends with "}\n". */
  predicate IsObject(s: string) {
    |s| >= 2 && s[0] == '{' && s[|s| - 2..] == "}\n"
  }

  /** json.Encoder.Encode of one result: the object and a newline, or None when nothing is written. */
  function Encode(c: CoExpression, fmt: FormatNumber): (r: Option<string>)
    requires PlainText(c.geneticEntityId)
    ensures r.Some? <==> IsFinite(c.spearman) && IsFinite(c.pValue)
    ensures r.Some? ==> IsObject(r.value)
  {
    if IsFinite(c.spearman) && IsFinite(c.pValue) then
      Some(IdPrefix + c.geneticEntityId + SpearmanKey + fmt(c.spearman) + PValueKey + fmt(c.pValue) + "}\n")
    else None
  }

  /** The text before the first double quote. */
  function UntilQuote(s: string): (r: string)
    ensures |r| <= |s| && r == s[..|r|]
    ensures forall i :: 0 <= i < |r| ==> r[i] != '"'
    ensures |r| < |s| ==> s[|r|] == '"'
  {
    if |s| == 0 || s[0] == '"' then "" else [s[0]] + UntilQuote(s[1..])
  }

  /** Reads the gene id back out of an encoded object. */
  function IdOf(s: string): Option<string> {
    if |s| >= |IdPrefix| && s[..|IdPrefix|] == IdPrefix then Some(UntilQuote(s[|IdPrefix|..])) else None
  }

  lemma {:induction false} UntilQuoteOf(id: string, rest: string)
    requires forall i :: 0 <= i < |id| ==> id[i] != '"'
    requires |rest| > 0 && rest[0] == '"'
    ensures UntilQuote(id + rest) == id
    decreases |id|
  {
    if |id| > 0 {
      assert (id + rest)[1..] == id[1..] + rest;
      UntilQuoteOf(id[1..], rest);
    } else {
      assert id + rest == rest;
    }
  }

  lemma IdOfPrefixed(id: string, rest: string)
    requires forall i :: 0 <= i < |id| ==> id[i] != '"'
    requires |rest| > 0 && rest[0] == '"'
    ensures IdOf(IdPrefix + id + rest) == Some(id)
  {
    var s := IdPrefix + id + rest;
    assert s[..|IdPrefix|] == IdPrefix;
    assert s[|IdPrefix|..] == id + rest;
    UntilQuoteOf(id, rest);
  }

  /** The id of an encoded result can be read back from its text. */
  lemma EncodeIdRoundTrip(c: CoExpression, fmt: FormatNumber)
    requires PlainText(c.geneticEntityId)
    requires IsFinite(c.spearman) && IsFinite(c.pValue)
    ensures IdOf(Encode(c, fmt).value) == Some(c.geneticEntityId)
  {
    var id := c.geneticEntityId;
    var rest := SpearmanKey + fmt(c.spearman) + PValueKey + fmt(c.pValue) + "}\n";
    assert Encode(c, fmt).value == IdPrefix + id + rest;
    IdOfPrefixed(id, rest);
  }

  // ---------------------------------------------------------------------------
  // The array framing.

  predicate AllPlain(cs: seq<CoExpression>) {
    forall i :: 0 <= i < |cs| ==> PlainText(cs[i].geneticEntityId)
  }

  predicate AllFinite(cs: seq<CoExpression>) {
    forall i :: 0 <= i < |cs| ==> IsFinite(cs[i].spearman) && IsFinite(cs[i].pValue)
  }

  /** The strings joined with single commas between consecutive ones. */
  function Join(xs: seq<string>): (r: string)
    ensures |xs| == 0 ==> r == ""
    ensures |xs| == 1 ==> r == xs[0]
  {
    if |xs| == 0 then ""
    else if |xs| == 1 then xs[0]
    else Join(xs[..|xs| - 1]) + "," + xs[|xs| - 1]
  }

  /** The objects that were written, in arrival order: one per result whose numbers are finite. */
  function Encodings(cs: seq<CoExpression>, fmt: FormatNumber): (r: seq<string>)
    requires AllPlain(cs)
    ensures |r| <= |cs|
    ensures forall i :: 0 <= i < |r| ==> IsObject(r[i])
  {
    if |cs| == 0 then []
    else
      var init := cs[..|cs| - 1];
      assert AllPlain(init);
      var e := Encode(cs[|cs| - 1], fmt);
      Encodings(init, fmt) + (if e.Some? then [e.value] else [])
  }

  /** With every number finite, each result's object is written, in order. */
  lemma {:induction false} EncodingsAllFinite(cs: seq<CoExpression>, fmt: FormatNumber)
    requires AllPlain(cs) && AllFinite(cs)
    ensures |Encodings(cs, fmt)| == |cs|
    ensures forall i :: 0 <= i < |cs| ==> Encode(cs[i], fmt) == Some(Encodings(cs, fmt)[i])
    decreases |cs|
  {
    if |cs| > 0 {
      var init := cs[..|cs| - 1];
      assert AllPlain(init) && AllFinite(init);
      EncodingsAllFinite(init, fmt);
    }
  }

  /**
   * The body as the source writes it: a comma before every result but the first,
   * whether or not that result's encoding was written.
   */
  function BodyAsWritten(cs: seq<CoExpression>, fmt: FormatNumber): string
    requires AllPlain(cs)
  {
    if |cs| == 0 then ""
    else
      var init := cs[..|cs| - 1];
      assert AllPlain(init);
      var e := Encode(cs[|cs| - 1], fmt);
      BodyAsWritten(init, fmt) + (if |init| > 0 then "," else "") + (if e.Some? then e.value else "")
  }

  /**
   * The response as the source writes it. When every number is finite no
   * encoding fails, and it is the intended framing.
   */
  function FrameAsWritten(cs: seq<CoExpression>, fmt: FormatNumber): (r: string)
    requires AllPlain(cs)
    ensures AllFinite(cs) ==> r == Frame(cs, fmt)
  {
    BodyAgrees(cs, fmt);
    "[" + BodyAsWritten(cs, fmt) + "]\n"
  }

  /** The response as intended: '[', the written objects separated by commas, then "]\n"; always a JSON array. */
  function Frame(cs: seq<CoExpression>, fmt: FormatNumber): (r: string)
    requires AllPlain(cs)
    ensures IsArray(r)
  {
    var xs := Encodings(cs, fmt);
    assert forall i :: 0 <= i < |xs| ==> IsObject(xs[i]);
    "[" + Join(xs) + "]\n"
  }

  /** A JSON array of encoded objects, as the response body should be. */
  ghost predicate IsArray(s: string) {
    exists xs: seq<string> :: (forall i :: 0 <= i < |xs| ==> IsObject(xs[i])) && s == "[" + Join(xs) + "]\n"
  }

  lemma {:induction false} JoinStart(xs: seq<string>)
    requires |xs| > 0 && forall i :: 0 <= i < |xs| ==> IsObject(xs[i])
    ensures |Join(xs)| > 0 && Join(xs)[0] == '{'
    decreases |xs|
  {
    if |xs| > 1 {
      JoinStart(xs[..|xs| - 1]);
    }
  }

  /** Every such array opens with "[{" or is the empty array. */
  lemma ArrayOpening(s: string)
    requires IsArray(s)
    ensures |s| >= 3 && s[0] == '['
    ensures s[1] == '{' || s == "[]\n"
  {
    var xs: seq<string> :| (forall i :: 0 <= i < |xs| ==> IsObject(xs[i])) && s == "[" + Join(xs) + "]\n";
    if |xs| > 0 {
      JoinStart(xs);
    }
  }

  /** With no results the response is exactly "[]\n". */
  lemma EmptyFrame(fmt: FormatNumber)
    ensures Frame([], fmt) == "[]\n"
    ensures FrameAsWritten([], fmt) == "[]\n"
  {
  }

  lemma {:induction false} BodyAgrees(cs: seq<CoExpression>, fmt: FormatNumber)
    requires AllPlain(cs)
    ensures AllFinite(cs) ==> BodyAsWritten(cs, fmt) == Join(Encodings(cs, fmt))
    decreases |cs|
  {
    if |cs| > 0 && AllFinite(cs) {
      var init := cs[..|cs| - 1];
      assert AllPlain(init) && AllFinite(init);
      BodyAgrees(init, fmt);
      EncodingsAllFinite(cs, fmt);
      var e := Encode(cs[|cs| - 1], fmt);
      assert e.Some?;
      assert Encodings(cs, fmt) == Encodings(init, fmt) + [e.value];
      JoinSnoc(Encodings(init, fmt), e.value);
    }
  }

  const QuietNaN: Float64 := 0x7FF8_0000_0000_0000
  const One: Float64 := 0x3FF0_0000_0000_0000

  /** A result that writes nothing followed by one that is written: a stray comma. */
  lemma SkippedThenWritten(a: CoExpression, b: CoExpression, fmt: FormatNumber)
    requires PlainText(a.geneticEntityId) && PlainText(b.geneticEntityId)
    requires Encode(a, fmt).None? && Encode(b, fmt).Some?
    ensures FrameAsWritten([a, b], fmt) == "[," + Encode(b, fmt).value + "]\n"
  {
    assert [a, b][..1] == [a];
    assert [a][..0] == [];
    assert BodyAsWritten([a], fmt) == "";
    assert BodyAsWritten([a, b], fmt) == "," + Encode(b, fmt).value;
  }

  lemma NaNNotFinite()
    ensures !IsFinite(QuietNaN) && IsFinite(One) && IsFinite(0)
  {
  }

  /** What the source writes for a NaN correlation followed by a finite result. */
  lemma AsWrittenNaNFirst(fmt: FormatNumber)
    ensures FrameAsWritten([CoExpression("1", QuietNaN, 0), CoExpression("2", One, 0)], fmt)
      == "[," + Encode(CoExpression("2", One, 0), fmt).value + "]\n"
  {
    NaNNotFinite();
    SkippedThenWritten(CoExpression("1", QuietNaN, 0), CoExpression("2", One, 0), fmt);
  }

  /**
   * A NaN correlation followed by a finite result: the source writes "[," and
   * so no JSON array, while the intended framing gives one.
   */
  lemma StrayComma(fmt: FormatNumber)
    ensures var cs := [CoExpression("1", QuietNaN, 0), CoExpression("2", One, 0)];
            && FrameAsWritten(cs, fmt)[..2] == "[,"
            && !IsArray(FrameAsWritten(cs, fmt))
            && IsArray(Frame(cs, fmt))
  {
    var cs := [CoExpression("1", QuietNaN, 0), CoExpression("2", One, 0)];
    AsWrittenNaNFirst(fmt);
    var s := FrameAsWritten(cs, fmt);
    assert s[1] == ',';
    if IsArray(s) {
      ArrayOpening(s);
      assert false;
    }
  }

  // ---------------------------------------------------------------------------
  // The streaming writer.

  function Concat(chunks: seq<string>): string {
    if |chunks| == 0 then "" else Concat(chunks[..|chunks| - 1]) + chunks[|chunks| - 1]
  }

  lemma ConcatSnoc(chunks: seq<string>, x: string)
    ensures Concat(chunks + [x]) == Concat(chunks) + x
  {
    assert (chunks + [x])[..|chunks|] == chunks;
  }

  lemma JoinSnoc(xs: seq<string>, x: string)
    ensures Join(xs + [x]) == if |xs| == 0 then x else Join(xs) + "," + x
  {
    assert (xs + [x])[..|xs|] == xs;
  }

  /** Encoding one more result appends its object, if it was written. */
  lemma EncodingsSnoc(cs: seq<CoExpression>, i: nat, fmt: FormatNumber)
    requires i < |cs| && AllPlain(cs)
    ensures AllPlain(cs[..i]) && AllPlain(cs[..i + 1])
    ensures Encodings(cs[..i + 1], fmt) ==
      Encodings(cs[..i], fmt) + (if Encode(cs[i], fmt).Some? then [Encode(cs[i], fmt).value] else [])
  {
    assert cs[..i + 1][..i] == cs[..i];
  }

  /** Every chunk after the opening bracket is a separator or one of the written objects. */
  predicate FromWritten(chunks: seq<string>, written: seq<string>) {
    forall k :: 0 < k < |chunks| ==> chunks[k] == "," || chunks[k] in written
  }

  lemma FromWrittenExtend(chunks: seq<string>, written: seq<string>, more: seq<string>, x: string)
    requires FromWritten(chunks, written)
    requires forall k :: 0 <= k < |more| ==> more[k] == "," || more[k] == x
    ensures FromWritten(chunks + more, written + [x])
  {
  }

  /**
   * One turn of the corrected write loop: the result's object, after a comma
   * unless it is the first object written; nothing when its encoding failed.
   */
  method WriteOneCorrected(chunks: seq<string>, wroteFirst: bool, e: Option<string>, ghost written: seq<string>)
    returns (chunks': seq<string>, wroteFirst': bool)
    requires Concat(chunks) == "[" + Join(written)
    requires wroteFirst <==> |written| > 0
    requires |chunks| >= 1 && FromWritten(chunks, written)
    ensures Concat(chunks') == "[" + Join(written + (if e.Some? then [e.value] else []))
    ensures wroteFirst' <==> |written + (if e.Some? then [e.value] else [])| > 0
    ensures |chunks'| >= 1 && chunks'[0] == chunks[0]
    ensures FromWritten(chunks', written + (if e.Some? then [e.value] else []))
    ensures e.None? ==> chunks' == chunks
    ensures e.Some? ==> chunks' == chunks + [e.value] || chunks' == chunks + [",", e.value]
  {
    chunks', wroteFirst' := chunks, wroteFirst;
    if e.Some? {
      JoinSnoc(written, e.value);
      if wroteFirst {
        ConcatSnoc(chunks, ",");
        chunks' := chunks + [","];
      } else {
        wroteFirst' := true;
      }
      ConcatSnoc(chunks', e.value);
      chunks' := chunks' + [e.value];
      FromWrittenExtend(chunks, written, chunks'[|chunks|..], e.value);
      assert chunks + chunks'[|chunks|..] == chunks';
    } else {
      assert written + [] == written;
    }
  }

  /**
   * The write loop with the stray comma removed: '[' first, then each written
   * object (after a comma unless it is the first one written), then "]\n".
   * Every write holds at most one result, so nothing is buffered.
   */
  method WriteResponseCorrected(cs: seq<CoExpression>, fmt: FormatNumber) returns (chunks: seq<string>)
    requires AllPlain(cs)
    ensures Concat(chunks) == Frame(cs, fmt)
    ensures |chunks| >= 2 && chunks[0] == "[" && chunks[|chunks| - 1] == "]\n"
    ensures FromWritten(chunks[..|chunks| - 1], Encodings(cs, fmt))
  {
    chunks := ["["];
    var wroteFirst := false;
    ghost var written: seq<string> := [];
    var i := 0;
    assert Concat(chunks) == "[";
    while i < |cs|
      invariant 0 <= i <= |cs|
      invariant AllPlain(cs[..i]) && written == Encodings(cs[..i], fmt)
      invariant |chunks| >= 1 && chunks[0] == "["
      invariant Concat(chunks) == "[" + Join(written)
      invariant wroteFirst <==> |written| > 0
      invariant FromWritten(chunks, written)
    {
      EncodingsSnoc(cs, i, fmt);
      var e := Encode(cs[i], fmt);
      chunks, wroteFirst := WriteOneCorrected(chunks, wroteFirst, e, written);
      written := written + (if e.Some? then [e.value] else []);
      i := i + 1;
    }
    assert cs[..i] == cs;
    var body := chunks;
    ConcatSnoc(chunks, "]\n");
    chunks := chunks + ["]\n"];
    assert chunks[..|chunks| - 1] == body;
  }

  // ---------------------------------------------------------------------------
  // The write loop as the source has it.

  /** One more result extends the as-written body by its comma (if not first) and its object (if written). */
  lemma BodyAsWrittenSnoc(cs: seq<CoExpression>, i: nat, fmt: FormatNumber)
    requires i < |cs| && AllPlain(cs)
    ensures AllPlain(cs[..i]) && AllPlain(cs[..i + 1])
    ensures BodyAsWritten(cs[..i + 1], fmt) == BodyAsWritten(cs[..i], fmt)
      + ((if i > 0 then "," else "") + (if Encode(cs[i], fmt).Some? then Encode(cs[i], fmt).value else ""))
  {
    assert cs[..i + 1][..i] == cs[..i];
    assert cs[..i + 1][i] == cs[i];
  }

  /** The text written so far stays '[' plus the as-written body of the results seen. */
  lemma WrittenStep(cs: seq<CoExpression>, i: nat, fmt: FormatNumber, chunks: seq<string>, chunks': seq<string>)
    requires i < |cs| && AllPlain(cs)
    requires AllPlain(cs[..i]) && Concat(chunks) == "[" + BodyAsWritten(cs[..i], fmt)
    requires Concat(chunks') == Concat(chunks) + ((if i > 0 then "," else "")
      + (if Encode(cs[i], fmt).Some? then Encode(cs[i], fmt).value else ""))
    ensures AllPlain(cs[..i + 1]) && Concat(chunks') == "[" + BodyAsWritten(cs[..i + 1], fmt)
  {
    BodyAsWrittenSnoc(cs, i, fmt);
    var sep := if i > 0 then "," else "";
    var obj := if Encode(cs[i], fmt).Some? then Encode(cs[i], fmt).value else "";
    AppendAfterBracket(Concat(chunks), Concat(chunks'), BodyAsWritten(cs[..i], fmt), sep + obj);
  }

  lemma AppendAfterBracket(written: string, written': string, body: string, more: string)
    requires written == "[" + body && written' == written + more
    ensures written' == "[" + (body + more)
  {
  }

  /**
   * One turn of the source's loop: a comma whenever an earlier result was seen,
   * decided by the flag before encoding, then the object if it was written.
   */
  method WriteResult(chunks: seq<string>, wroteFirst: bool, e: Option<string>)
    returns (chunks': seq<string>, wroteFirst': bool)
    requires e.Some? ==> IsObject(e.value)
    ensures wroteFirst'
    ensures Concat(chunks') == Concat(chunks) + ((if wroteFirst then "," else "") + (if e.Some? then e.value else ""))
    ensures |chunks'| >= |chunks| && chunks'[..|chunks|] == chunks
    ensures forall k :: |chunks| <= k < |chunks'| ==> chunks'[k] == "," || IsObject(chunks'[k])
  {
    chunks', wroteFirst' := chunks, wroteFirst;
    if wroteFirst {
      ConcatSnoc(chunks', ",");
      chunks' := chunks' + [","];
    } else {
      wroteFirst' := true;
    }
    if e.Some? {
      ConcatSnoc(chunks', e.value);
      chunks' := chunks' + [e.value];
    }
  }

  /**
   * The source's write loop: '[' first, then for every result a comma unless it
   * is the first result, then whatever Encode wrote, and "]\n" last.
   */
  method WriteResponse(cs: seq<CoExpression>, fmt: FormatNumber) returns (chunks: seq<string>)
    requires AllPlain(cs)
    ensures Concat(chunks) == FrameAsWritten(cs, fmt)
    ensures |chunks| >= 2 && chunks[0] == "[" && chunks[|chunks| - 1] == "]\n"
    ensures forall k :: 0 < k < |chunks| - 1 ==> chunks[k] == "," || IsObject(chunks[k])
  {
    chunks := ["["];
    var wroteFirst := false;
    var i := 0;
    assert Concat(chunks) == "[";
    while i < |cs|
      invariant 0 <= i <= |cs|
      invariant AllPlain(cs[..i])
      invariant wroteFirst <==> i > 0
      invariant |chunks| >= 1 && chunks[0] == "["
      invariant Concat(chunks) == "[" + BodyAsWritten(cs[..i], fmt)
      invariant forall k :: 0 < k < |chunks| ==> chunks[k] == "," || IsObject(chunks[k])
    {
      var e := Encode(cs[i], fmt);
      ghost var before := chunks;
      chunks, wroteFirst := WriteResult(chunks, wroteFirst, e);
      WrittenStep(cs, i, fmt, before, chunks);
      i := i + 1;
    }
    assert cs[..i] == cs;
    var body := chunks;
    ConcatSnoc(chunks, "]\n");
    chunks := chunks + ["]\n"];
    assert chunks[..|chunks| - 1] == body;
  }

  /**
   * Whenever the first result's encoding fails and another result follows,
   * the source's body opens with "[,", whatever the later results are.
   */
  lemma {:induction false} FailedFirstStrayComma(cs: seq<CoExpression>, fmt: FormatNumber)
    requires AllPlain(cs) && |cs| >= 2
    requires Encode(cs[0], fmt).None?
    ensures |FrameAsWritten(cs, fmt)| >= 2 && FrameAsWritten(cs, fmt)[..2] == "[,"
    ensures !IsArray(FrameAsWritten(cs, fmt))
  {
    BodyStartsWithComma(cs, fmt);
    var s := FrameAsWritten(cs, fmt);
    assert s[1] == ',';
    if IsArray(s) {
      ArrayOpening(s);
      assert false;
    }
  }

  lemma {:induction false} BodyStartsWithComma(cs: seq<CoExpression>, fmt: FormatNumber)
    requires AllPlain(cs) && |cs| >= 2
    requires Encode(cs[0], fmt).None?
    ensures |BodyAsWritten(cs, fmt)| >= 1 && BodyAsWritten(cs, fmt)[0] == ','
    decreases |cs|
  {
    var init := cs[..|cs| - 1];
    assert AllPlain(init);
    if |cs| == 2 {
      assert init[..0] == [];
      assert BodyAsWritten(init, fmt) == "";
    } else {
      assert init[0] == cs[0];
      BodyStartsWithComma(init, fmt);
    }
  }
}
