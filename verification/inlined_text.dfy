/**
 * The inline-icon text builder (`InlinedTextImpl`): `+"s"` appends text,
 * `+annotated` appends an annotated string, `icon(image, size)` (and
 * `+image`) appends an `[icon]` placeholder tagged with a fresh id
 * `<<icon{n}>>` and records its content, `-"s"` appends underlined text in
 * the secondary colour, `-"s"["url"]` appends such text under a `"URL"`
 * annotation, and `build` returns the text with the content map. Also the
 * choice between the clickable and the plain text and the tap lookup.
 */
module InlinedText {
  import opened Wrappers
  import opened AnnotatedText

  /** The tag under which the toolkit records inline content ids. */
  const InlineContentTag: string := "androidx.compose.foundation.text.inlineContent"

  const UrlTag: string := "URL"

  /** The alternate text an icon stands on. */
  const IconPlaceholder: string := "[icon]"

  /** The size `+image` gives an icon, in sp. */
  const DefaultIconSize: nat := 16

  /** An image, as an opaque token. */
  datatype Image = Image(id: nat)

  /** What `icon` records for an id: a placeholder of the given width and height, and the image it draws. */
  datatype InlineContent = InlineContent(width: nat, height: nat, image: Image)

  // ----- Decimal rendering of the icon counter -----

  function DigitChar(d: nat): (c: char)
    requires d < 10
    ensures '0' <= c <= '9'
  {
    ('0' as int + d) as char
  }

  function DigitValue(c: char): nat {
    if '0' <= c <= '9' then c as int - '0' as int else 0
  }

  /** Kotlin's string template `$counter` for a non-negative Int: decimal, no leading zeros. */
  function NatToString(n: nat): (s: string)
    ensures |s| >= 1
    ensures forall i :: 0 <= i < |s| ==> '0' <= s[i] <= '9'
    ensures s[0] == '0' ==> n == 0
  {
    if n < 10 then [DigitChar(n)] else NatToString(n / 10) + [DigitChar(n % 10)]
  }

  /** Reads a string of decimal digits. */
  function ParseNat(s: string): nat {
    if |s| == 0 then 0 else 10 * ParseNat(s[..|s| - 1]) + DigitValue(s[|s| - 1])
  }

  /** Reading back a rendered counter gives the counter. */
  lemma {:induction false} ParseNatToString(n: nat)
    ensures ParseNat(NatToString(n)) == n
  {
    var s := NatToString(n);
    if n >= 10 {
      ParseNatToString(n / 10);
      assert s[..|s| - 1] == NatToString(n / 10);
    }
  }

  /** The inline content id of the icon appended when the counter was `n`. */
  function IconId(n: nat): (id: string)
    ensures |id| > 8 && id[..6] == "<<icon" && id[|id| - 2..] == ">>"
    ensures forall i :: 6 <= i < |id| - 2 ==> '0' <= id[i] <= '9'
  {
    "<<icon" + NatToString(n) + ">>"
  }

  /** Different counters give different icon ids. */
  lemma IconIdInjective(a: nat, b: nat)
    ensures IconId(a) == IconId(b) <==> a == b
  {
    if IconId(a) == IconId(b) {
      var x := IconId(a);
      assert NatToString(a) == x[6..|x| - 2];
      assert NatToString(b) == x[6..|x| - 2];
      ParseNatToString(a);
      ParseNatToString(b);
    }
  }

  // ----- The builder -----

  /** The builder's state: secondary colour, rich text, content map, icon counter. */
  datatype InlinedTextImpl = InlinedTextImpl(secondary: Color, builder: Builder, content: map<string, InlineContent>, counter: nat)

  /** The style of `-"s"`: underlined, in the secondary colour. */
  function LinkStyle(secondary: Color): (style: SpanStyle)
    ensures style.color == secondary && style.underline
  {
    SpanStyle(secondary, true)
  }

  /** `InlinedTextImpl(secondary)`: empty text, no content, counter 0. */
  function New(secondary: Color): (d: InlinedTextImpl)
    ensures Wf(d.builder) && d.builder.text == [] && d.builder.ranges == [] && d.builder.stack == []
    ensures d.content == map[] && d.counter == 0 && d.secondary == secondary
  {
    InlinedTextImpl(secondary, EmptyBuilder(), map[], 0)
  }

  /**
   * Push a range, append `s` inside it, pop it: the range covers exactly the
   * appended text.
   */
  function Wrapped(b: Builder, item: Item, s: string): (r: Builder)
    requires Wf(b)
    ensures Wf(r)
    ensures r.text == b.text + s && r.stack == b.stack
    ensures r.ranges == b.ranges + [MutableRange(item, |b.text|, Some(|b.text| + |s|))]
  {
    var b1 := Append(Push(b, item), s);
    assert b1.stack[|b1.stack| - 1] == |b.ranges|;
    var r := Pop(b1);
    assert r.ranges == b.ranges + [MutableRange(item, |b.text|, Some(|b.text| + |s|))];
    r
  }

  /** The colour, the content map and the icon counter are left alone. */
  predicate KeepsIcons(d: InlinedTextImpl, r: InlinedTextImpl) {
    r.secondary == d.secondary && r.content == d.content && r.counter == d.counter
  }

  /** `+"s"`: append the text verbatim, with no range and no content. */
  function PlusString(d: InlinedTextImpl, s: string): (r: InlinedTextImpl)
    requires Wf(d.builder)
    ensures Wf(r.builder) && KeepsIcons(d, r)
    ensures r.builder.text == d.builder.text + s
    ensures r.builder.ranges == d.builder.ranges && r.builder.stack == d.builder.stack
  {
    d.(builder := Append(d.builder, s))
  }

  /** `+annotated`: append an annotated string with its ranges. */
  function PlusAnnotated(d: InlinedTextImpl, a: AnnotatedString): (r: InlinedTextImpl)
    requires Wf(d.builder)
    ensures Wf(r.builder) && KeepsIcons(d, r)
    ensures r.builder == AppendAnnotated(d.builder, a)
  {
    d.(builder := AppendAnnotated(d.builder, a))
  }

  /**
   * `icon(image, size)`: append the placeholder as inline content with id
   * `<<icon{counter}>>`, record the content under that id, count the icon.
   */
  function Icon(d: InlinedTextImpl, image: Image, size: nat): (r: InlinedTextImpl)
    requires Wf(d.builder)
    ensures Wf(r.builder) && r.secondary == d.secondary
    ensures var n := |d.builder.text|;
              && r.builder.text == d.builder.text + IconPlaceholder
              && r.builder.stack == d.builder.stack
              && r.builder.ranges == d.builder.ranges +
                   [MutableRange(Annotation(InlineContentTag, IconId(d.counter)), n, Some(n + |IconPlaceholder|))]
    ensures r.content == d.content[IconId(d.counter) := InlineContent(size, size, image)]
    ensures r.counter == d.counter + 1
  {
    var id := IconId(d.counter);
    d.(builder := Wrapped(d.builder, Annotation(InlineContentTag, id), IconPlaceholder),
       content := d.content[id := InlineContent(size, size, image)],
       counter := d.counter + 1)
  }

  /** `+image`: an icon of the default size. */
  function PlusImage(d: InlinedTextImpl, image: Image): (r: InlinedTextImpl)
    requires Wf(d.builder)
    ensures r.content == d.content[IconId(d.counter) := InlineContent(DefaultIconSize, DefaultIconSize, image)]
    ensures r.counter == d.counter + 1
  {
    Icon(d, image, DefaultIconSize)
  }

  /** `-"s"`: append the text inside one underlined secondary-colour span covering exactly it. */
  function MinusString(d: InlinedTextImpl, s: string): (r: InlinedTextImpl)
    requires Wf(d.builder)
    ensures Wf(r.builder) && KeepsIcons(d, r)
    ensures var n := |d.builder.text|;
              && r.builder.text == d.builder.text + s
              && r.builder.text[n..] == s
              && r.builder.stack == d.builder.stack
              && r.builder.ranges == d.builder.ranges +
                   [MutableRange(Style(LinkStyle(d.secondary)), n, Some(n + |s|))]
  {
    d.(builder := Wrapped(d.builder, Style(LinkStyle(d.secondary)), s))
  }

  /** A text with the URL it opens. */
  datatype UrlHolder = UrlHolder(text: string, url: string)

  /** `"s"["url"]`. */
  function WithUrl(s: string, url: string): (h: UrlHolder)
    ensures h.text == s && h.url == url
  {
    UrlHolder(s, url)
  }

  /**
   * `-"s"["url"]`: push a `"URL"` annotation, append the text inside an
   * underlined span, pop; the annotation and the span cover exactly the text
   * and the stack of open ranges is as before.
   */
  function MinusUrl(d: InlinedTextImpl, h: UrlHolder): (r: InlinedTextImpl)
    requires Wf(d.builder)
    ensures Wf(r.builder) && KeepsIcons(d, r)
    ensures var n := |d.builder.text|;
              && r.builder.text == d.builder.text + h.text
              && r.builder.text[n..] == h.text
              && r.builder.stack == d.builder.stack
              && r.builder.ranges == d.builder.ranges +
                   [MutableRange(Annotation(UrlTag, h.url), n, Some(n + |h.text|)),
                    MutableRange(Style(LinkStyle(d.secondary)), n, Some(n + |h.text|))]
  {
    var b0 := d.builder;
    var n := |b0.text|;
    var b1 := Push(b0, Annotation(UrlTag, h.url));
    var b2 := Wrapped(b1, Style(LinkStyle(d.secondary)), h.text);
    assert b2.stack[|b2.stack| - 1] == |b0.ranges|;
    var b3 := Pop(b2);
    assert b3.ranges == b0.ranges +
      [MutableRange(Annotation(UrlTag, h.url), n, Some(n + |h.text|)),
       MutableRange(Style(LinkStyle(d.secondary)), n, Some(n + |h.text|))];
    d.(builder := b3)
  }

  /** `build`: the accumulated text and a copy of the content map. */
  function Build(d: InlinedTextImpl): (r: (AnnotatedString, map<string, InlineContent>))
    ensures r.0.text == d.builder.text && r.1 == d.content
    ensures |r.0.ranges| == |d.builder.ranges|
    ensures forall i :: 0 <= i < |d.builder.ranges| ==>
              && r.0.ranges[i].item == d.builder.ranges[i].item
              && r.0.ranges[i].start == d.builder.ranges[i].start
              && r.0.ranges[i].end == d.builder.ranges[i].end.GetOr(|d.builder.text|)
  {
    (ToAnnotatedString(d.builder), d.content)
  }

  // ----- Sequences of builder calls -----

  /** One call of the builder DSL. */
  datatype Op =
    | Text(s: string)
    | Annotated(a: AnnotatedString)
    | ImageOp(image: Image)
    | IconOp(image: Image, size: nat)
    | Underlined(s: string)
    | Link(holder: UrlHolder)

  function Apply(d: InlinedTextImpl, op: Op): (r: InlinedTextImpl)
    requires Wf(d.builder)
    ensures Wf(r.builder) && r.secondary == d.secondary && r.builder.stack == d.builder.stack
    ensures r.counter == d.counter + (if op.ImageOp? || op.IconOp? then 1 else 0)
  {
    match op
    case Text(s) => PlusString(d, s)
    case Annotated(a) => PlusAnnotated(d, a)
    case ImageOp(image) => PlusImage(d, image)
    case IconOp(image, size) => Icon(d, image, size)
    case Underlined(s) => MinusString(d, s)
    case Link(h) => MinusUrl(d, h)
  }

  /** The number of icon calls among the operations. */
  function IconCount(ops: seq<Op>): nat {
    if |ops| == 0 then 0
    else (if ops[0].ImageOp? || ops[0].IconOp? then 1 else 0) + IconCount(ops[1..])
  }

  function Run(d: InlinedTextImpl, ops: seq<Op>): (r: InlinedTextImpl)
    requires Wf(d.builder)
    ensures Wf(r.builder) && r.secondary == d.secondary && r.builder.stack == d.builder.stack
    ensures r.counter == d.counter + IconCount(ops)
    decreases |ops|
  {
    if |ops| == 0 then d else Run(Apply(d, ops[0]), ops[1..])
  }

  /** The ids of the icons appended while the counter went from 0 to `n`. */
  ghost function IconIdSet(n: nat): set<string> {
    set k: nat | k < n :: IconId(k)
  }

  /** The content map is keyed by exactly the ids of the icons appended so far. */
  ghost predicate Valid(d: InlinedTextImpl) {
    Wf(d.builder) && d.content.Keys == IconIdSet(d.counter)
  }

  /** The next icon id is new, and adding it gives the next set. */
  lemma IconIdSetStep(n: nat)
    ensures IconId(n) !in IconIdSet(n)
    ensures IconIdSet(n + 1) == IconIdSet(n) + {IconId(n)}
  {
    forall k: nat | k < n
      ensures IconId(k) != IconId(n)
    {
      IconIdInjective(k, n);
    }
    assert IconIdSet(n + 1) == IconIdSet(n) + {IconId(n)} by {
      forall x | x in IconIdSet(n + 1)
        ensures x in IconIdSet(n) + {IconId(n)}
      {
        var k: nat :| k < n + 1 && x == IconId(k);
        if k < n {
          assert x in IconIdSet(n);
        }
      }
    }
  }

  /** `n` icon calls give `n` distinct ids. */
  lemma {:induction false} IconIdSetSize(n: nat)
    ensures |IconIdSet(n)| == n
  {
    if n == 0 {
      assert IconIdSet(0) == {};
    } else {
      IconIdSetSize(n - 1);
      IconIdSetStep(n - 1);
    }
  }

  /** Every call keeps the content keys equal to the icon ids; an icon call adds a key that was not there. */
  lemma ApplyKeepsValid(d: InlinedTextImpl, op: Op)
    requires Valid(d)
    ensures Valid(Apply(d, op))
    ensures (op.ImageOp? || op.IconOp?) ==>
              IconId(d.counter) !in d.content &&
              Apply(d, op).content.Keys == d.content.Keys + {IconId(d.counter)}
  {
    IconIdSetStep(d.counter);
  }

  lemma {:induction false} RunKeepsValid(d: InlinedTextImpl, ops: seq<Op>)
    requires Valid(d)
    ensures Valid(Run(d, ops))
    decreases |ops|
  {
    if |ops| > 0 {
      ApplyKeepsValid(d, ops[0]);
      RunKeepsValid(Apply(d, ops[0]), ops[1..]);
    }
  }

  /**
   * After any sequence of calls the counter is the number of icon calls, the
   * content map has one entry per icon call, keyed by the distinct icon ids,
   * and no range is left open.
   */
  lemma RunFromNew(secondary: Color, ops: seq<Op>)
    ensures var d := Run(New(secondary), ops);
              && d.counter == IconCount(ops)
              && d.content.Keys == IconIdSet(d.counter)
              && |d.content| == d.counter
              && d.builder.stack == []
  {
    RunKeepsValid(New(secondary), ops);
    var d := Run(New(secondary), ops);
    IconIdSetSize(d.counter);
    assert |d.content| == |d.content.Keys|;
  }

  /** `+image` is `icon(image, 16.sp)`. */
  lemma PlusImageIsDefaultIcon(d: InlinedTextImpl, image: Image)
    requires Wf(d.builder)
    ensures PlusImage(d, image) == Icon(d, image, DefaultIconSize)
  {
  }

  // ----- Inline content ids in the built text -----

  /** The items of builder ranges, in order. */
  function Items(rs: seq<MutableRange>): (items: seq<Item>)
    ensures |items| == |rs|
    ensures forall i :: 0 <= i < |rs| ==> items[i] == rs[i].item
  {
    seq(|rs|, i requires 0 <= i < |rs| => rs[i].item)
  }

  /** The items of an annotated string's ranges, in order. */
  function ItemsOf(a: AnnotatedString): (items: seq<Item>)
    ensures |items| == |a.ranges|
    ensures forall i :: 0 <= i < |a.ranges| ==> items[i] == a.ranges[i].item
  {
    seq(|a.ranges|, i requires 0 <= i < |a.ranges| => a.ranges[i].item)
  }

  predicate IsInlineContent(item: Item) {
    item.Annotation? && item.tag == InlineContentTag
  }

  /** The inline content ids among the items, in order. */
  function InlineIds(items: seq<Item>): seq<string> {
    if |items| == 0 then []
    else
      var last := items[|items| - 1];
      InlineIds(items[..|items| - 1]) + (if IsInlineContent(last) then [last.value] else [])
  }

  lemma {:induction false} InlineIdsConcat(a: seq<Item>, b: seq<Item>)
    ensures InlineIds(a + b) == InlineIds(a) + InlineIds(b)
    decreases |b|
  {
    if |b| == 0 {
      assert a + b == a;
    } else {
      var b' := b[..|b| - 1];
      InlineIdsConcat(a, b');
      assert (a + b)[..|a + b| - 1] == a + b';
    }
  }

  lemma {:induction false} InlineIdsNone(items: seq<Item>)
    requires forall i :: 0 <= i < |items| ==> !IsInlineContent(items[i])
    ensures InlineIds(items) == []
    decreases |items|
  {
    if |items| > 0 {
      InlineIdsNone(items[..|items| - 1]);
    }
  }

  /** The ids of the first `n` icons, in the order they were appended. */
  function IconIds(n: nat): (ids: seq<string>)
    ensures |ids| == n
    ensures forall k :: 0 <= k < n ==> ids[k] == IconId(k)
  {
    if n == 0 then [] else IconIds(n - 1) + [IconId(n - 1)]
  }

  /** An annotated string that carries no inline content of its own. */
  predicate NoInlineContent(a: AnnotatedString) {
    forall i :: 0 <= i < |a.ranges| ==> !IsInlineContent(a.ranges[i].item)
  }

  /** No appended annotated string brings inline content ids of its own. */
  predicate NoForeignInlineContent(ops: seq<Op>) {
    forall i :: 0 <= i < |ops| && ops[i].Annotated? ==> NoInlineContent(ops[i].a)
  }

  /** The inline content ids in the text are the icon ids, in counter order. */
  ghost predicate Tracked(d: InlinedTextImpl) {
    InlineIds(Items(d.builder.ranges)) == IconIds(d.counter)
  }

  /** Ranges that carry no inline content leave the id list as it was. */
  lemma AppendNoIds(rs: seq<MutableRange>, added: seq<MutableRange>)
    requires forall i :: 0 <= i < |added| ==> !IsInlineContent(added[i].item)
    ensures InlineIds(Items(rs + added)) == InlineIds(Items(rs))
  {
    assert Items(rs + added) == Items(rs) + Items(added);
    InlineIdsConcat(Items(rs), Items(added));
    InlineIdsNone(Items(added));
  }

  /** An inline content range adds its id at the end of the list. */
  lemma AppendOneId(rs: seq<MutableRange>, x: MutableRange)
    requires IsInlineContent(x.item)
    ensures InlineIds(Items(rs + [x])) == InlineIds(Items(rs)) + [x.item.value]
  {
    assert Items(rs + [x])[..|rs|] == Items(rs);
  }

  lemma ApplyKeepsTracked(d: InlinedTextImpl, op: Op)
    requires Wf(d.builder) && Tracked(d)
    requires op.Annotated? ==> NoInlineContent(op.a)
    ensures Tracked(Apply(d, op))
  {
    var r := Apply(d, op);
    var rs := d.builder.ranges;
    match op {
      case Text(_) =>
      case Annotated(a) =>
        var added := r.builder.ranges[|rs|..];
        assert r.builder.ranges == rs + added;
        AppendNoIds(rs, added);
      case ImageOp(_) =>
        var added := r.builder.ranges[|rs|..];
        assert r.builder.ranges == rs + [added[0]];
        AppendOneId(rs, added[0]);
      case IconOp(_, _) =>
        var added := r.builder.ranges[|rs|..];
        assert r.builder.ranges == rs + [added[0]];
        AppendOneId(rs, added[0]);
      case Underlined(_) =>
        var added := r.builder.ranges[|rs|..];
        assert r.builder.ranges == rs + added;
        AppendNoIds(rs, added);
      case Link(_) =>
        var added := r.builder.ranges[|rs|..];
        assert r.builder.ranges == rs + added;
        AppendNoIds(rs, added);
    }
  }

  lemma {:induction false} RunKeepsTracked(d: InlinedTextImpl, ops: seq<Op>)
    requires Wf(d.builder) && Tracked(d)
    requires NoForeignInlineContent(ops)
    ensures Tracked(Run(d, ops))
    decreases |ops|
  {
    if |ops| > 0 {
      ApplyKeepsTracked(d, ops[0]);
      assert NoForeignInlineContent(ops[1..]) by {
        forall i | 0 <= i < |ops[1..]| && ops[1..][i].Annotated?
          ensures NoInlineContent(ops[1..][i].a)
        {
          assert ops[1..][i] == ops[i + 1];
        }
      }
      RunKeepsTracked(Apply(d, ops[0]), ops[1..]);
    }
  }

  /**
   * In the built text the inline content ids are `<<icon0>>`, `<<icon1>>`,
   * ... in order, all distinct, one per content entry, and they are exactly
   * the content map's keys (when no appended annotated string brings inline
   * content of its own).
   */
  lemma BuiltInlineIds(secondary: Color, ops: seq<Op>)
    requires NoForeignInlineContent(ops)
    ensures var built := Build(Run(New(secondary), ops));
              var ids := InlineIds(ItemsOf(built.0));
              && |ids| == |built.1| == IconCount(ops)
              && (forall k :: 0 <= k < |ids| ==> ids[k] == IconId(k))
              && (forall i, j :: 0 <= i < j < |ids| ==> ids[i] != ids[j])
              && (forall x :: x in built.1 <==> x in ids)
  {
    var d := Run(New(secondary), ops);
    RunKeepsTracked(New(secondary), ops);
    RunFromNew(secondary, ops);
    var built := Build(d);
    assert ItemsOf(built.0) == Items(d.builder.ranges);
    var ids := InlineIds(ItemsOf(built.0));
    forall i, j | 0 <= i < j < |ids|
      ensures ids[i] != ids[j]
    {
      IconIdInjective(i, j);
    }
    forall x
      ensures x in built.1 <==> x in ids
    {
      if x in built.1 {
        var k: nat :| k < d.counter && x == IconId(k);
        assert ids[k] == x;
      }
    }
  }

  // ----- Choosing the clickable text, and taps -----

  predicate IsUrl(item: Item) {
    item.Annotation? && item.tag == UrlTag
  }

  /** A tap at `offset` can hit the range: the toolkit's rule for an empty query at `offset`. */
  lemma PointIntersect(offset: int, start: int, end: int)
    requires start <= end
    ensures Intersect(offset, offset, start, end) <==>
              (start <= offset < end || start == end == offset)
  {
  }

  /**
   * The check at InlinedText.kt:42 as written: some `"URL"` annotation meets
   * `[0, length - 1)`, a range whose exclusive end leaves out the last character.
   */
  function HasUrlAsWritten(t: AnnotatedString): (r: bool)
    ensures r <==> exists i :: 0 <= i < |t.ranges| && IsMatch(t.ranges[i], UrlTag, 0, |t.text| - 1)
  {
    |GetStringAnnotations(t, UrlTag, 0, |t.text| - 1)| > 0
  }

  /** The check as evidently intended: some `"URL"` annotation meets the whole text `[0, length)`. */
  function HasUrl(t: AnnotatedString): (r: bool)
    ensures r <==> exists i :: 0 <= i < |t.ranges| && IsMatch(t.ranges[i], UrlTag, 0, |t.text|)
  {
    |GetStringAnnotations(t, UrlTag, 0, |t.text|)| > 0
  }

  /** A tap at `offset`: the URL of the first `"URL"` annotation hit, or nothing. */
  function TapUrl(t: AnnotatedString, offset: int): (r: Option<string>)
    ensures r.Some? <==> exists i :: 0 <= i < |t.ranges| && IsMatch(t.ranges[i], UrlTag, offset, offset)
    ensures r.Some? ==>
              exists i :: 0 <= i < |t.ranges| && IsMatch(t.ranges[i], UrlTag, offset, offset) &&
                r.value == t.ranges[i].item.value &&
                (forall j :: 0 <= j < i ==> !IsMatch(t.ranges[j], UrlTag, offset, offset))
  {
    var hits := GetStringAnnotations(t, UrlTag, offset, offset);
    if |hits| > 0 then Some(hits[0].item.value) else None
  }

  /** Every `"URL"` annotation covers a non-empty part of the text. */
  ghost predicate ProperUrls(t: AnnotatedString) {
    forall i :: 0 <= i < |t.ranges| && IsUrl(t.ranges[i].item) ==>
      t.ranges[i].start < t.ranges[i].end <= |t.text|
  }

  /** Every `"URL"` annotation lies within the text, possibly empty. */
  ghost predicate UrlsInText(t: AnnotatedString) {
    forall i :: 0 <= i < |t.ranges| && IsUrl(t.ranges[i].item) ==>
      t.ranges[i].start <= t.ranges[i].end <= |t.text|
  }

  /**
   * With the whole-text query, the text is shown clickable exactly when a tap
   * somewhere in it opens a URL.
   */
  lemma HasUrlIffTappable(t: AnnotatedString)
    requires ProperUrls(t)
    ensures HasUrl(t) <==> exists o: nat :: o < |t.text| && TapUrl(t, o).Some?
  {
    if HasUrl(t) {
      var o := UrlIsTappable(t);
      assert o < |t.text| && TapUrl(t, o).Some?;
    }
    if exists o: nat :: o < |t.text| && TapUrl(t, o).Some? {
      var o: nat :| o < |t.text| && TapUrl(t, o).Some?;
      TappableIsUrl(t, o);
    }
  }

  /** A URL that meets the whole text can be tapped at its first character. */
  lemma UrlIsTappable(t: AnnotatedString) returns (o: nat)
    requires ProperUrls(t) && HasUrl(t)
    ensures o < |t.text| && TapUrl(t, o).Some?
  {
    var hits := GetStringAnnotations(t, UrlTag, 0, |t.text|);
    var x := hits[0];
    assert x in hits;
    var i :| 0 <= i < |t.ranges| && t.ranges[i] == x;
    assert IsUrl(t.ranges[i].item);
    o := x.start;
    assert IsMatch(t.ranges[i], UrlTag, o, o);
  }

  /** A URL hit by a tap inside the text meets the whole text. */
  lemma TappableIsUrl(t: AnnotatedString, o: nat)
    requires UrlsInText(t) && o < |t.text| && TapUrl(t, o).Some?
    ensures HasUrl(t)
  {
    var i :| 0 <= i < |t.ranges| && IsMatch(t.ranges[i], UrlTag, o, o);
    assert IsUrl(t.ranges[i].item);
    PointIntersect(o, t.ranges[i].start, t.ranges[i].end);
    assert IsMatch(t.ranges[i], UrlTag, 0, |t.text|);
  }

  /**
   * On a non-empty text whose URLs lie within it, empty ones included, the
   * whole-text query holds exactly when a tap somewhere in the text opens a URL.
   */
  lemma HasUrlIffTappableNonEmpty(t: AnnotatedString)
    requires UrlsInText(t) && |t.text| > 0
    ensures HasUrl(t) <==> exists o: nat :: o < |t.text| && TapUrl(t, o).Some?
  {
    if HasUrl(t) {
      var i :| 0 <= i < |t.ranges| && IsMatch(t.ranges[i], UrlTag, 0, |t.text|);
      var x := t.ranges[i];
      assert IsUrl(x.item);
      var o: nat := x.start;
      PointIntersect(o, x.start, x.end);
      assert IsMatch(x, UrlTag, o, o);
      assert o < |t.text| && TapUrl(t, o).Some?;
    }
    if exists o: nat :: o < |t.text| && TapUrl(t, o).Some? {
      var o: nat :| o < |t.text| && TapUrl(t, o).Some?;
      TappableIsUrl(t, o);
    }
  }

  /**
   * The check as written misses a link that is only the last character:
   * `+"a"; -"b"["u"]` gives a text that is shown plain although a tap on
   * its last character would open `u`.
   */
  lemma LastCharacterLinkMissed(secondary: Color)
    ensures var t := Build(Run(New(secondary), [Text("a"), Link(WithUrl("b", "u"))])).0;
              && !HasUrlAsWritten(t)
              && TapUrl(t, 1) == Some("u")
              && HasUrl(t)
    ensures InlinedTextViewAsWritten(secondary, [Text("a"), Link(WithUrl("b", "u"))]).Plain?
    ensures InlinedTextView(secondary, [Text("a"), Link(WithUrl("b", "u"))]).Clickable?
  {
    var d0 := New(secondary);
    var d1 := Apply(d0, Text("a"));
    var d2 := Apply(d1, Link(WithUrl("b", "u")));
    assert Run(d0, [Text("a"), Link(WithUrl("b", "u"))]) == d2 by {
      assert [Text("a"), Link(WithUrl("b", "u"))][1..] == [Link(WithUrl("b", "u"))];
      assert Run(d1, [Link(WithUrl("b", "u"))]) == Run(d2, []);
    }
    var t := Build(d2).0;
    assert t.text == "ab";
    assert t.ranges == [Range(Annotation(UrlTag, "u"), 1, 2), Range(Style(LinkStyle(secondary)), 1, 2)];
    assert !IsMatch(t.ranges[0], UrlTag, 0, 1);
    assert IsMatch(t.ranges[0], UrlTag, 1, 1);
    assert IsMatch(t.ranges[0], UrlTag, 0, 2);
  }

  // ----- The composable's choice over a built text -----

  /** What `InlinedText` shows: the clickable text (taps open URLs) or the plain text. */
  datatype Shown =
    | Clickable(text: AnnotatedString, content: map<string, InlineContent>)
    | Plain(text: AnnotatedString, content: map<string, InlineContent>)

  /** `InlinedText(builder)`, with the whole-text check. */
  function InlinedTextView(secondary: Color, ops: seq<Op>): (r: Shown)
    ensures r.text == Build(Run(New(secondary), ops)).0
    ensures r.content == Build(Run(New(secondary), ops)).1
    ensures r.Clickable? <==> HasUrl(r.text)
  {
    var built := Build(Run(New(secondary), ops));
    if HasUrl(built.0) then Clickable(built.0, built.1) else Plain(built.0, built.1)
  }

  /** `InlinedText(builder)` with the check as written at InlinedText.kt:42. */
  function InlinedTextViewAsWritten(secondary: Color, ops: seq<Op>): (r: Shown)
    ensures r.text == Build(Run(New(secondary), ops)).0
    ensures r.content == Build(Run(New(secondary), ops)).1
    ensures r.Clickable? <==> HasUrlAsWritten(r.text)
  {
    var built := Build(Run(New(secondary), ops));
    if HasUrlAsWritten(built.0) then Clickable(built.0, built.1) else Plain(built.0, built.1)
  }

  /**
   * Every range is closed and inside the text; with `nonEmptyUrls`, every
   * `"URL"` range is also non-empty.
   */
  ghost predicate ProperRanges(b: Builder, nonEmptyUrls: bool) {
    forall i :: 0 <= i < |b.ranges| ==>
      && b.ranges[i].end.Some?
      && b.ranges[i].start <= b.ranges[i].end.value <= |b.text|
      && (nonEmptyUrls && IsUrl(b.ranges[i].item) ==> b.ranges[i].start < b.ranges[i].end.value)
  }

  /** An appended annotated string whose ranges lie in its text (with non-empty `"URL"` ranges when asked). */
  ghost predicate ProperText(a: AnnotatedString, nonEmptyUrls: bool) {
    forall i :: 0 <= i < |a.ranges| ==>
      && a.ranges[i].start <= a.ranges[i].end <= |a.text|
      && (nonEmptyUrls && IsUrl(a.ranges[i].item) ==> a.ranges[i].start < a.ranges[i].end)
  }

  /** A call whose annotated string is proper, and whose link text is non-empty when `"URL"` ranges must be. */
  ghost predicate ProperOp(op: Op, nonEmptyUrls: bool) {
    && (nonEmptyUrls && op.Link? ==> |op.holder.text| > 0)
    && (op.Annotated? ==> ProperText(op.a, nonEmptyUrls))
  }

  /** Appending a proper annotated string keeps the ranges proper. */
  lemma AppendAnnotatedKeepsProper(b: Builder, a: AnnotatedString, nonEmptyUrls: bool)
    requires Wf(b) && ProperRanges(b, nonEmptyUrls) && ProperText(a, nonEmptyUrls)
    ensures ProperRanges(AppendAnnotated(b, a), nonEmptyUrls)
  {
    var r := AppendAnnotated(b, a);
    var n := |b.text|;
    var added := r.ranges[|b.ranges|..];
    assert r.ranges == b.ranges + added;
    forall i | 0 <= i < |added|
      ensures added[i] == MutableRange(a.ranges[i].item, n + a.ranges[i].start, Some(n + a.ranges[i].end))
    {
      assert added[i] == r.ranges[|b.ranges| + i];
    }
    AppendRangesKeepsProper(b, r, added, nonEmptyUrls);
  }

  /** Ranges added over text appended at the end keep the ranges proper when each added one is. */
  lemma AppendRangesKeepsProper(b: Builder, r: Builder, added: seq<MutableRange>, nonEmptyUrls: bool)
    requires ProperRanges(b, nonEmptyUrls)
    requires |b.text| <= |r.text| && r.ranges == b.ranges + added
    requires forall i :: 0 <= i < |added| ==>
               && added[i].end.Some?
               && added[i].start <= added[i].end.value <= |r.text|
               && (nonEmptyUrls && IsUrl(added[i].item) ==> added[i].start < added[i].end.value)
    ensures ProperRanges(r, nonEmptyUrls)
  {
    forall i | 0 <= i < |r.ranges|
      ensures r.ranges[i].end.Some?
      ensures r.ranges[i].start <= r.ranges[i].end.value <= |r.text|
      ensures nonEmptyUrls && IsUrl(r.ranges[i].item) ==> r.ranges[i].start < r.ranges[i].end.value
    {
      if i >= |b.ranges| {
        assert r.ranges[i] == added[i - |b.ranges|];
      }
    }
  }

  lemma PlusStringKeepsProper(d: InlinedTextImpl, s: string, nonEmptyUrls: bool)
    requires Wf(d.builder) && ProperRanges(d.builder, nonEmptyUrls)
    ensures ProperRanges(PlusString(d, s).builder, nonEmptyUrls)
  {
    AppendRangesKeepsProper(d.builder, PlusString(d, s).builder, [], nonEmptyUrls);
  }

  lemma IconKeepsProper(d: InlinedTextImpl, image: Image, size: nat, nonEmptyUrls: bool)
    requires Wf(d.builder) && ProperRanges(d.builder, nonEmptyUrls)
    ensures ProperRanges(Icon(d, image, size).builder, nonEmptyUrls)
  {
    var n := |d.builder.text|;
    var x := MutableRange(Annotation(InlineContentTag, IconId(d.counter)), n, Some(n + |IconPlaceholder|));
    assert !IsUrl(x.item);
    AppendRangesKeepsProper(d.builder, Icon(d, image, size).builder, [x], nonEmptyUrls);
  }

  lemma MinusStringKeepsProper(d: InlinedTextImpl, s: string, nonEmptyUrls: bool)
    requires Wf(d.builder) && ProperRanges(d.builder, nonEmptyUrls)
    ensures ProperRanges(MinusString(d, s).builder, nonEmptyUrls)
  {
    var n := |d.builder.text|;
    var x := MutableRange(Style(LinkStyle(d.secondary)), n, Some(n + |s|));
    AppendRangesKeepsProper(d.builder, MinusString(d, s).builder, [x], nonEmptyUrls);
  }

  lemma MinusUrlKeepsProper(d: InlinedTextImpl, h: UrlHolder, nonEmptyUrls: bool)
    requires Wf(d.builder) && ProperRanges(d.builder, nonEmptyUrls)
    requires nonEmptyUrls ==> |h.text| > 0
    ensures ProperRanges(MinusUrl(d, h).builder, nonEmptyUrls)
  {
    var n := |d.builder.text|;
    var added := [MutableRange(Annotation(UrlTag, h.url), n, Some(n + |h.text|)),
                  MutableRange(Style(LinkStyle(d.secondary)), n, Some(n + |h.text|))];
    AppendRangesKeepsProper(d.builder, MinusUrl(d, h).builder, added, nonEmptyUrls);
  }

  lemma ApplyKeepsProper(d: InlinedTextImpl, op: Op, nonEmptyUrls: bool)
    requires Wf(d.builder) && ProperRanges(d.builder, nonEmptyUrls) && ProperOp(op, nonEmptyUrls)
    ensures ProperRanges(Apply(d, op).builder, nonEmptyUrls)
  {
    match op {
      case Text(s) => PlusStringKeepsProper(d, s, nonEmptyUrls);
      case Annotated(a) => AppendAnnotatedKeepsProper(d.builder, a, nonEmptyUrls);
      case ImageOp(image) => IconKeepsProper(d, image, DefaultIconSize, nonEmptyUrls);
      case IconOp(image, size) => IconKeepsProper(d, image, size, nonEmptyUrls);
      case Underlined(s) => MinusStringKeepsProper(d, s, nonEmptyUrls);
      case Link(h) => MinusUrlKeepsProper(d, h, nonEmptyUrls);
    }
  }

  lemma {:induction false} RunKeepsProper(d: InlinedTextImpl, ops: seq<Op>, nonEmptyUrls: bool)
    requires Wf(d.builder) && ProperRanges(d.builder, nonEmptyUrls)
    requires forall i :: 0 <= i < |ops| ==> ProperOp(ops[i], nonEmptyUrls)
    ensures ProperRanges(Run(d, ops).builder, nonEmptyUrls)
    decreases |ops|
  {
    if |ops| > 0 {
      ApplyKeepsProper(d, ops[0], nonEmptyUrls);
      assert forall i :: 0 <= i < |ops[1..]| ==> ops[1..][i] == ops[i + 1];
      RunKeepsProper(Apply(d, ops[0]), ops[1..], nonEmptyUrls);
    }
  }

  /** The built string of a proper builder: its `"URL"` ranges lie in the text, non-empty when asked. */
  lemma BuiltUrls(d: InlinedTextImpl, nonEmptyUrls: bool)
    requires Wf(d.builder) && ProperRanges(d.builder, nonEmptyUrls)
    ensures UrlsInText(Build(d).0)
    ensures nonEmptyUrls ==> ProperUrls(Build(d).0)
  {
    var t := Build(d).0;
    forall i | 0 <= i < |t.ranges| && IsUrl(t.ranges[i].item)
      ensures t.ranges[i].start <= t.ranges[i].end <= |t.text|
      ensures nonEmptyUrls ==> t.ranges[i].start < t.ranges[i].end
    {
      assert d.builder.ranges[i].end.Some?;
    }
  }

  /**
   * With non-empty link texts, the composable shows the clickable text
   * exactly when a tap somewhere in the text opens a URL.
   */
  lemma ClickableIffTappable(secondary: Color, ops: seq<Op>)
    requires forall i :: 0 <= i < |ops| ==> ProperOp(ops[i], true)
    ensures var v := InlinedTextView(secondary, ops);
              v.Clickable? <==> exists o: nat :: o < |v.text.text| && TapUrl(v.text, o).Some?
  {
    var d := Run(New(secondary), ops);
    RunKeepsProper(New(secondary), ops, true);
    BuiltUrls(d, true);
    HasUrlIffTappable(Build(d).0);
  }

  /**
   * On a non-empty text, with any link texts (empty ones included), the
   * composable shows the clickable text exactly when a tap somewhere in the
   * text opens a URL.
   */
  lemma ClickableIffTappableNonEmptyText(secondary: Color, ops: seq<Op>)
    requires forall i :: 0 <= i < |ops| ==> ProperOp(ops[i], false)
    requires |InlinedTextView(secondary, ops).text.text| > 0
    ensures var v := InlinedTextView(secondary, ops);
              v.Clickable? <==> exists o: nat :: o < |v.text.text| && TapUrl(v.text, o).Some?
  {
    var d := Run(New(secondary), ops);
    RunKeepsProper(New(secondary), ops, false);
    BuiltUrls(d, false);
    HasUrlIffTappableNonEmpty(Build(d).0);
  }

  /**
   * The one case the equivalence leaves out: an empty link on its own gives
   * an empty text, shown clickable, where no offset can be tapped.
   */
  lemma EmptyLinkOnEmptyText(secondary: Color)
    ensures var v := InlinedTextView(secondary, [Link(WithUrl("", "u"))]);
              v.Clickable? && |v.text.text| == 0
  {
    var d0 := New(secondary);
    var d1 := Apply(d0, Link(WithUrl("", "u")));
    assert Run(d0, [Link(WithUrl("", "u"))]) == d1 by {
      assert [Link(WithUrl("", "u"))][1..] == [];
    }
    var t := Build(d1).0;
    assert t.text == "";
    assert t.ranges[0] == Range(Annotation(UrlTag, "u"), 0, 0);
    assert IsMatch(t.ranges[0], UrlTag, 0, 0);
  }
}
