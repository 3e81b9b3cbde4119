/**
 * An abstract rich-text builder in the style of the UI toolkit's
 * AnnotatedString.Builder, as far as the inline-icon text builder uses it:
 * appended text, style spans and string annotations over ranges, and a stack
 * of ranges that are open until popped. Also the toolkit's query for string
 * annotations by tag and range.
 */
module AnnotatedText {
  import opened Wrappers

  /** A colour, as an opaque token. */
  datatype Color = Color(id: nat)

  /** The parts of a span style the text builder sets. */
  datatype SpanStyle = SpanStyle(color: Color, underline: bool)

  /** What a range carries: a style span or a string annotation with a tag. */
  datatype Item = Style(style: SpanStyle) | Annotation(tag: string, value: string)

  /** A range while the builder runs: open (no end yet) until it is popped. */
  datatype MutableRange = MutableRange(item: Item, start: nat, end: Option<nat>)

  /** The builder: text so far, ranges in the order they were pushed, open-range stack. */
  datatype Builder = Builder(text: string, ranges: seq<MutableRange>, stack: seq<nat>)

  /** Every stacked index names an open range, innermost last. */
  ghost predicate Wf(b: Builder) {
    && (forall i :: 0 <= i < |b.stack| ==> b.stack[i] < |b.ranges| && b.ranges[b.stack[i]].end.None?)
    && (forall i, j :: 0 <= i < j < |b.stack| ==> b.stack[i] < b.stack[j])
  }

  function EmptyBuilder(): (b: Builder)
    ensures Wf(b) && b.text == [] && b.ranges == [] && b.stack == []
  {
    Builder([], [], [])
  }

  /** `append(text)`. */
  function Append(b: Builder, s: string): (r: Builder)
    requires Wf(b)
    ensures Wf(r)
    ensures r.text == b.text + s && r.ranges == b.ranges && r.stack == b.stack
  {
    b.(text := b.text + s)
  }

  /** `pushStyle` / `pushStringAnnotation`: open a range at the current end of the text. */
  function Push(b: Builder, item: Item): (r: Builder)
    requires Wf(b)
    ensures Wf(r)
    ensures r.text == b.text
    ensures r.ranges == b.ranges + [MutableRange(item, |b.text|, None)]
    ensures r.stack == b.stack + [|b.ranges|]
  {
    Builder(b.text, b.ranges + [MutableRange(item, |b.text|, None)], b.stack + [|b.ranges|])
  }

  /** `pop`: close the innermost open range at the current end of the text. */
  function Pop(b: Builder): (r: Builder)
    requires Wf(b) && |b.stack| > 0
    ensures Wf(r)
    ensures r.text == b.text
    ensures r.stack == b.stack[..|b.stack| - 1]
    ensures var top := b.stack[|b.stack| - 1];
              top < |b.ranges| && r.ranges == b.ranges[top := b.ranges[top].(end := Some(|b.text|))]
  {
    var top := b.stack[|b.stack| - 1];
    Builder(b.text, b.ranges[top := b.ranges[top].(end := Some(|b.text|))], b.stack[..|b.stack| - 1])
  }

  /** A finished range: `[start, end)` of the text carries `item`. */
  datatype Range = Range(item: Item, start: nat, end: nat)

  /** The immutable result of building. */
  datatype AnnotatedString = AnnotatedString(text: string, ranges: seq<Range>)

  /** `append(annotatedString)`: its text, and its ranges shifted to where it lands. */
  function AppendAnnotated(b: Builder, a: AnnotatedString): (r: Builder)
    requires Wf(b)
    ensures Wf(r)
    ensures r.text == b.text + a.text && r.stack == b.stack
    ensures |r.ranges| == |b.ranges| + |a.ranges| && r.ranges[..|b.ranges|] == b.ranges
    ensures forall i :: 0 <= i < |a.ranges| ==>
              r.ranges[|b.ranges| + i] ==
                MutableRange(a.ranges[i].item, |b.text| + a.ranges[i].start, Some(|b.text| + a.ranges[i].end))
  {
    var n := |b.text|;
    var shifted := seq(|a.ranges|, i requires 0 <= i < |a.ranges| =>
      MutableRange(a.ranges[i].item, n + a.ranges[i].start, Some(n + a.ranges[i].end)));
    Builder(b.text + a.text, b.ranges + shifted, b.stack)
  }

  /** `toAnnotatedString`: ranges still open end at the end of the text. */
  function ToAnnotatedString(b: Builder): (a: AnnotatedString)
    ensures a.text == b.text && |a.ranges| == |b.ranges|
    ensures forall i :: 0 <= i < |b.ranges| ==>
              a.ranges[i] == Range(b.ranges[i].item, b.ranges[i].start, b.ranges[i].end.GetOr(|b.text|))
  {
    AnnotatedString(b.text, seq(|b.ranges|, i requires 0 <= i < |b.ranges| =>
      Range(b.ranges[i].item, b.ranges[i].start, b.ranges[i].end.GetOr(|b.text|))))
  }

  /**
   * The toolkit's containment rule: `[ts, te)` lies in `[bs, be)`; when the
   * ends coincide an empty range counts only inside an empty range.
   */
  predicate Contains(bs: int, be: int, ts: int, te: int) {
    bs <= ts && te <= be && (be != te || (ts == te) == (bs == be))
  }

  /** The toolkit's intersection rule for half-open ranges, which lets an empty range meet a range around it. */
  predicate Intersect(ls: int, le: int, rs: int, re: int) {
    (if ls < rs then rs else ls) < (if le < re then le else re) ||
    Contains(ls, le, rs, re) || Contains(rs, re, ls, le)
  }

  /** A string annotation with `tag` whose range meets the query range. */
  predicate IsMatch(r: Range, tag: string, start: int, end: int) {
    r.item.Annotation? && r.item.tag == tag && Intersect(start, end, r.start, r.end)
  }

  /** `getStringAnnotations(tag, start, end)` over a list of ranges, in order. */
  function Matches(rs: seq<Range>, tag: string, start: int, end: int): (r: seq<Range>)
    ensures forall x :: x in r ==> x in rs && IsMatch(x, tag, start, end)
    ensures forall i :: 0 <= i < |rs| && IsMatch(rs[i], tag, start, end) ==> rs[i] in r
    ensures |r| > 0 ==>
              exists i :: 0 <= i < |rs| && rs[i] == r[0] &&
                (forall j :: 0 <= j < i ==> !IsMatch(rs[j], tag, start, end))
  {
    if |rs| == 0 then []
    else
      var rest := Matches(rs[1..], tag, start, end);
      assert forall i :: 1 <= i < |rs| ==> rs[i] == rs[1..][i - 1];
      if IsMatch(rs[0], tag, start, end) then [rs[0]] + rest
      else
        assert |rest| > 0 ==>
                 exists i :: 1 <= i < |rs| && rs[i] == rest[0] &&
                   (forall j :: 1 <= j < i ==> !IsMatch(rs[j], tag, start, end));
        rest
  }

  /** `text.getStringAnnotations(tag, start, end)`. */
  function GetStringAnnotations(a: AnnotatedString, tag: string, start: int, end: int): (r: seq<Range>)
    ensures forall x :: x in r <==> x in a.ranges && IsMatch(x, tag, start, end)
    ensures |r| > 0 ==>
              exists i :: 0 <= i < |a.ranges| && a.ranges[i] == r[0] &&
                (forall j :: 0 <= j < i ==> !IsMatch(a.ranges[j], tag, start, end))
  {
    Matches(a.ranges, tag, start, end)
  }
}
