/** The HTML sanitizer as a machine: parser events in, allowed tags and text out. */
module Sanitizer {
  import opened PyValues

  datatype Attr = Attr(name: string, value: Option<string>)

  datatype KeptAttr = KeptAttr(name: string, value: string)

  /** What the parser reports. */
  datatype Event = StartTag(tag: string, attrs: seq<Attr>) | EndTag(tag: string) | Data(text: string)

  /** What the sanitizer emits; rendering escapes the texts and the attribute values. */
  datatype Token = Open(tag: string, attrs: seq<KeptAttr>) | Close(tag: string) | Text(text: string)

  /** The tags kept; every other tag is dropped and its text kept. */
  predicate IsAllowedTag(tag: string) {
    tag in {"p", "br", "hr", "h2", "h3", "h4", "h5", "ul", "ol", "li", "strong", "b",
            "em", "i", "code", "pre", "blockquote", "table", "thead", "tbody", "tr",
            "th", "td", "caption", "a", "span", "div", "sub", "sup"}
  }

  /** The tags that take everything inside them along. */
  predicate IsDroppedTag(tag: string) {
    tag in {"script", "style", "iframe", "object", "embed", "template"}
  }

  predicate IsVoidTag(tag: string) {
    tag in {"br", "hr"}
  }

  function AllowedAttributes(tag: string): set<string> {
    if tag == "a" then {"href", "title"}
    else if tag == "td" || tag == "th" then {"colspan", "rowspan"}
    else {}
  }

  // ---- the checks on names and values ----

  function LowerChar(c: char): char {
    if 'A' <= c <= 'Z' then ((c as int) + 32) as char else c
  }

  function Lower(s: string): (t: string)
    ensures |t| == |s|
  {
    seq(|s|, k requires 0 <= k < |s| => LowerChar(s[k]))
  }

  lemma LowerTwice(s: string)
    ensures Lower(Lower(s)) == Lower(s)
  {
  }

  /** The ASCII characters Python strips: the controls 9 to 13 and 28 to 31, and the space. */
  predicate IsSpace(c: char) {
    9 <= c as int <= 13 || 28 <= c as int <= 32
  }

  function StripLeft(s: string): string {
    if s != [] && IsSpace(s[0]) then StripLeft(s[1..]) else s
  }

  /** An absolute http or https URL with none of the characters that could leave the attribute. */
  predicate IsSafeUrl(url: string) {
    var start := Lower(StripLeft(url));
    ("http://" <= start || "https://" <= start) &&
    forall c | c in url :: c !in {'"', '\'', '<', '>', '\n', '\r'}
  }

  predicate IsDigits(s: string) {
    s != [] && forall c | c in s :: '0' <= c <= '9'
  }

  /** Whether an attribute survives on a tag, given its lower-cased name. */
  predicate Keeps(tag: string, name: string, value: string) {
    name in AllowedAttributes(tag) && (name == "href" ==> IsSafeUrl(value)) &&
    (name == "colspan" || name == "rowspan" ==> IsDigits(value))
  }

  function KeptAttrs(tag: string, attrs: seq<Attr>): seq<KeptAttr> {
    if attrs == [] then []
    else
      var a, later := attrs[0], KeptAttrs(tag, attrs[1..]);
      if a.value.Some? && Keeps(tag, Lower(a.name), a.value.value) then [KeptAttr(Lower(a.name), a.value.value)] + later else later
  }

  // ---- the machine as a function ----

  datatype State = State(out: seq<Token>, open: seq<string>, skip: nat)

  /** The closing tokens of a stack of open tags, innermost first. */
  function Closing(open: seq<string>): seq<Token> {
    if open == [] then [] else [Close(open[|open| - 1])] + Closing(open[..|open| - 1])
  }

  /** Where the innermost open `tag` stands. */
  function LastOpen(open: seq<string>, tag: string): (k: nat)
    requires tag in open
    ensures k < |open| && open[k] == tag && tag !in open[k + 1..]
  {
    if open[|open| - 1] == tag then |open| - 1
    else
      assert tag in open[..|open| - 1];
      var k := LastOpen(open[..|open| - 1], tag);
      assert open[k + 1..] == open[..|open| - 1][k + 1..] + [open[|open| - 1]];
      k
  }

  function Step(s: State, e: Event): State {
    match e
    case StartTag(raw, attrs) =>
      var tag := Lower(raw);
      if IsDroppedTag(tag) then s.(skip := s.skip + 1)
      else if s.skip > 0 || !IsAllowedTag(tag) then s
      else
        State(s.out + [Open(tag, KeptAttrs(tag, attrs))], if IsVoidTag(tag) then s.open else s.open + [tag], s.skip)
    case EndTag(raw) =>
      var tag := Lower(raw);
      if IsDroppedTag(tag) then s.(skip := if s.skip > 0 then s.skip - 1 else 0)
      else if s.skip > 0 || tag !in s.open then s
      else
        var k := LastOpen(s.open, tag);
        State(s.out + Closing(s.open[k..]), s.open[..k], s.skip)
    case Data(text) => if s.skip > 0 then s else s.(out := s.out + [Text(text)])
  }

  const Fresh := State([], [], 0)

  function Run(s: State, events: seq<Event>): State
    decreases |events|
  {
    if events == [] then s else Run(Step(s, events[0]), events[1..])
  }

  function Sanitized(events: seq<Event>): seq<Token> {
    var s := Run(Fresh, events);
    s.out + Closing(s.open)
  }

  // ---- the machine itself ----

  /** The attributes that survive on a tag, in order. */
  method KeepAttrs(tag: string, attrs: seq<Attr>) returns (kept: seq<KeptAttr>)
    ensures kept == KeptAttrs(tag, attrs)
  {
    hide IsSafeUrl, IsDigits, AllowedAttributes, Lower, KeptAttrs;
    kept := [];
    assert attrs[0..] == attrs;
    for k := 0 to |attrs|
      invariant KeptAttrs(tag, attrs) == kept + KeptAttrs(tag, attrs[k..])
    {
      KeptOneMore(tag, attrs, k);
      var name := Lower(attrs[k].name);
      if name !in AllowedAttributes(tag) || attrs[k].value.None? {
        continue;
      }
      var value := attrs[k].value.value;
      if name == "href" && !IsSafeUrl(value) {
        continue;
      }
      if (name == "colspan" || name == "rowspan") && !IsDigits(value) {
        continue;
      }
      kept := kept + [KeptAttr(name, value)];
    }
    NothingToKeep(tag, attrs[|attrs|..]);
  }

  lemma NothingToKeep(tag: string, attrs: seq<Attr>)
    requires attrs == []
    ensures KeptAttrs(tag, attrs) == []
  {
  }

  lemma KeptOneMore(tag: string, attrs: seq<Attr>, k: nat)
    requires k < |attrs|
    ensures var a, later := attrs[k], KeptAttrs(tag, attrs[k + 1..]);
            KeptAttrs(tag, attrs[k..]) ==
            if a.value.Some? && Keeps(tag, Lower(a.name), a.value.value) then [KeptAttr(Lower(a.name), a.value.value)] + later else later
  {
    assert attrs[k..][0] == attrs[k] && attrs[k..][1..] == attrs[k + 1..];
  }

  /** Popping the innermost tag emits the first of the closing tokens still due. */
  lemma ClosingOneMore(all: seq<string>, k: nat, n: nat)
    requires k < n <= |all|
    ensures Closing(all[k..n]) == [Close(all[n - 1])] + Closing(all[k..n - 1])
  {
    assert all[k..n][..n - 1 - k] == all[k..n - 1];
  }

  /** Popping from the innermost tag down, the first `tag` met is the innermost one, and no closing
      token is due any more. */
  lemma LastOpenIsReached(open: seq<string>, tag: string, k: nat)
    requires tag in open && LastOpen(open, tag) <= k < |open| && open[k] == tag
    ensures k == LastOpen(open, tag) && Closing(open[LastOpen(open, tag)..k]) == []
  {
    var last := LastOpen(open, tag);
    if k > last {
      LaterIsOther(open, tag, k);
    }
    assert open[k..k] == [];
  }

  /** Past the innermost open `tag` only other tags are open. */
  lemma LaterIsOther(open: seq<string>, tag: string, k: nat)
    requires tag in open && LastOpen(open, tag) < k < |open|
    ensures open[k] != tag
  {
    var last := LastOpen(open, tag);
    assert open[k] == open[last + 1..][k - last - 1];
  }

  class Machine {
    var out: seq<Token>
    var open: seq<string>
    var skip: nat

    ghost function View(): State
      reads this
    {
      State(out, open, skip)
    }

    constructor ()
      ensures View() == Fresh
    {
      out, open, skip := [], [], 0;
    }

    method HandleStartTag(raw: string, attrs: seq<Attr>)
      modifies this
      ensures View() == Step(old(View()), StartTag(raw, attrs))
    {
      var tag := Lower(raw);
      if IsDroppedTag(tag) {
        skip := skip + 1;
        return;
      }
      if skip > 0 || !IsAllowedTag(tag) {
        return;
      }
      var kept := KeepAttrs(tag, attrs);
      out := out + [Open(tag, kept)];
      if !IsVoidTag(tag) {
        open := open + [tag];
      }
    }

    method HandleEndTag(raw: string)
      modifies this
      ensures View() == Step(old(View()), EndTag(raw))
    {
      var tag := Lower(raw);
      if IsDroppedTag(tag) {
        skip := if skip > 0 then skip - 1 else 0;
        return;
      }
      if skip > 0 || tag !in open {
        return;
      }
      PopThrough(tag);
    }

    /** Closes the open tags from the innermost one out to `tag`. */
    method PopThrough(tag: string)
      requires tag in open
      modifies this`open, this`out
      ensures open == old(open)[..LastOpen(old(open), tag)]
      ensures out == old(out) + Closing(old(open)[LastOpen(old(open), tag)..])
    {
      ghost var all, before := open, out;
      ghost var k := LastOpen(all, tag);
      assert all[..|all|] == all && all[k..|all|] == all[k..];
      hide LastOpen, Closing;
      while open != []
        invariant k < |open| <= |all| && open == all[..|open|]
        invariant out + Closing(all[k..|open|]) == before + Closing(all[k..])
        decreases |open|
      {
        ghost var n := |open|;
        var current := PopOne();
        ClosingOneMore(all, k, n);
        if current == tag {
          LastOpenIsReached(all, tag, n - 1);
          break;
        }
        assert n - 1 != k;
      }
    }

    /** Closes the innermost open tag. */
    method PopOne() returns (current: string)
      requires open != []
      modifies this`open, this`out
      ensures current == old(open)[|old(open)| - 1] && open == old(open)[..|old(open)| - 1]
      ensures out == old(out) + [Close(current)]
    {
      current := open[|open| - 1];
      open := open[..|open| - 1];
      out := out + [Close(current)];
    }

    method HandleData(text: string)
      modifies this
      ensures View() == Step(old(View()), Data(text))
    {
      if skip == 0 {
        out := out + [Text(text)];
      }
    }

    method CloseAll() returns (tokens: seq<Token>)
      modifies this
      ensures tokens == old(out) + Closing(old(open)) && open == []
    {
      while open != []
        invariant out + Closing(open) == old(out) + Closing(old(open))
        decreases |open|
      {
        out := out + [Close(open[|open| - 1])];
        open := open[..|open| - 1];
      }
      tokens := out;
    }
  }

  method Sanitize(events: seq<Event>) returns (tokens: seq<Token>)
    ensures tokens == Sanitized(events)
  {
    var m := new Machine();
    for k := 0 to |events|
      invariant Run(m.View(), events[k..]) == Run(Fresh, events)
      invariant fresh(m)
    {
      assert events[k..][0] == events[k] && events[k..][1..] == events[k + 1..];
      match events[k] {
        case StartTag(tag, attrs) => m.HandleStartTag(tag, attrs);
        case EndTag(tag) => m.HandleEndTag(tag);
        case Data(text) => m.HandleData(text);
      }
    }
    tokens := m.CloseAll();
  }

  // ---- well-nested, allow-listed output ----

  /** The tags left open after `tokens` when `open` were open before; none when a closing tag does
      not match the innermost open one. */
  function Nesting(tokens: seq<Token>, open: seq<string>): Option<seq<string>>
    decreases |tokens|
  {
    if tokens == [] then Some(open)
    else
      match tokens[0]
      case Open(tag, _) => Nesting(tokens[1..], if IsVoidTag(tag) then open else open + [tag])
      case Close(tag) =>
        if open != [] && open[|open| - 1] == tag then Nesting(tokens[1..], open[..|open| - 1]) else None
      case Text(_) => Nesting(tokens[1..], open)
  }

  predicate WellNested(tokens: seq<Token>) {
    Nesting(tokens, []) == Some([])
  }

  /** A tag as the machine emits it: allowed, lower-case, and not one whose content is dropped. */
  predicate EmittedTag(tag: string) {
    IsAllowedTag(tag) && Lower(tag) == tag && !IsDroppedTag(tag)
  }

  predicate AllowedToken(t: Token) {
    match t
    case Open(tag, attrs) => EmittedTag(tag) && forall a | a in attrs :: Keeps(tag, a.name, a.value) && Lower(a.name) == a.name
    case Close(tag) => EmittedTag(tag) && !IsVoidTag(tag)
    case Text(_) => true
  }

  predicate AllAllowed(tokens: seq<Token>) {
    forall t | t in tokens :: AllowedToken(t)
  }

  lemma {:induction false} NestingSplits(tokens: seq<Token>, more: seq<Token>, open: seq<string>)
    ensures Nesting(tokens + more, open) ==
            match Nesting(tokens, open) case None => None case Some(left) => Nesting(more, left)
    decreases |tokens|
  {
    if tokens == [] {
      assert tokens + more == more;
    } else {
      assert (tokens + more)[1..] == tokens[1..] + more;
      match tokens[0]
      case Open(tag, _) => NestingSplits(tokens[1..], more, if IsVoidTag(tag) then open else open + [tag]);
      case Close(tag) =>
        if open != [] && open[|open| - 1] == tag {
          NestingSplits(tokens[1..], more, open[..|open| - 1]);
        }
      case Text(_) => NestingSplits(tokens[1..], more, open);
    }
  }

  lemma {:induction false} ClosingNests(open: seq<string>, k: nat)
    requires k <= |open|
    ensures Nesting(Closing(open[k..]), open) == Some(open[..k])
    decreases |open|
  {
    var inner := open[k..];
    if inner == [] {
      assert open[..k] == open;
    } else {
      var n := |open| - 1;
      assert inner[..|inner| - 1] == open[..n][k..] && inner[|inner| - 1] == open[n];
      assert Closing(inner)[1..] == Closing(open[..n][k..]);
      ClosingNests(open[..n], k);
      assert open[..n][..k] == open[..k];
    }
  }

  lemma {:induction false} KeptAreKept(tag: string, attrs: seq<Attr>)
    ensures forall a | a in KeptAttrs(tag, attrs) :: Keeps(tag, a.name, a.value) && Lower(a.name) == a.name
    decreases |attrs|
  {
    if attrs != [] {
      KeptAreKept(tag, attrs[1..]);
      LowerTwice(attrs[0].name);
    }
  }

  lemma {:induction false} ClosingAllowed(open: seq<string>)
    requires forall tag | tag in open :: EmittedTag(tag) && !IsVoidTag(tag)
    ensures AllAllowed(Closing(open))
    decreases |open|
  {
    if open != [] {
      ClosingAllowed(open[..|open| - 1]);
    }
  }

  /** What every event keeps: the output nests up to the open tags and holds allowed tokens only. */
  ghost predicate Sound(s: State) {
    Nesting(s.out, []) == Some(s.open) && AllAllowed(s.out) &&
    forall tag | tag in s.open :: EmittedTag(tag) && !IsVoidTag(tag)
  }

  lemma StepIsSound(s: State, e: Event)
    requires Sound(s)
    ensures Sound(Step(s, e))
  {
    hide IsAllowedTag, IsDroppedTag, IsVoidTag, Keeps, KeptAttrs, Lower;
    match e
    case StartTag(raw, attrs) =>
      var tag := Lower(raw);
      LowerTwice(raw);
      KeptAreKept(tag, attrs);
      NestingSplits(s.out, [Open(tag, KeptAttrs(tag, attrs))], []);
      assert [Open(tag, KeptAttrs(tag, attrs))][1..] == [];
    case EndTag(raw) =>
      var tag := Lower(raw);
      if tag in s.open {
        var k := LastOpen(s.open, tag);
        NestingSplits(s.out, Closing(s.open[k..]), []);
        ClosingNests(s.open, k);
        ClosingAllowed(s.open[k..]);
      }
    case Data(text) =>
      NestingSplits(s.out, [Text(text)], []);
      assert [Text(text)][1..] == [];
  }

  lemma {:induction false} RunIsSound(s: State, events: seq<Event>)
    requires Sound(s)
    ensures Sound(Run(s, events))
    decreases |events|
  {
    if events != [] {
      StepIsSound(s, events[0]);
      hide Sound;
      RunIsSound(Step(s, events[0]), events[1..]);
    }
  }

  /** Whatever the events, the output is well nested and holds only allowed tags and attributes. */
  lemma OutputIsWellNestedAndAllowed(events: seq<Event>)
    ensures WellNested(Sanitized(events)) && AllAllowed(Sanitized(events))
  {
    RunIsSound(Fresh, events);
    var s := Run(Fresh, events);
    NestingSplits(s.out, Closing(s.open), []);
    ClosingNests(s.open, 0);
    assert s.open[0..] == s.open;
    ClosingAllowed(s.open);
  }

  // ---- the text that survives ----

  function Texts(tokens: seq<Token>): seq<string> {
    if tokens == [] then []
    else Texts(tokens[..|tokens| - 1]) + if tokens[|tokens| - 1].Text? then [tokens[|tokens| - 1].text] else []
  }

  /** How many dropped-content tags are open after one more event. */
  function Depth(skip: nat, e: Event): nat {
    match e
    case StartTag(tag, _) => if IsDroppedTag(Lower(tag)) then skip + 1 else skip
    case EndTag(tag) => if IsDroppedTag(Lower(tag)) && skip > 0 then skip - 1 else skip
    case Data(_) => skip
  }

  /** The texts met while no dropped-content tag is open, in order. */
  function VisibleTexts(events: seq<Event>, skip: nat): seq<string>
    decreases |events|
  {
    if events == [] then []
    else
      var later := VisibleTexts(events[1..], Depth(skip, events[0]));
      if events[0].Data? && skip == 0 then [events[0].text] + later else later
  }

  function AllTexts(events: seq<Event>): seq<string> {
    if events == [] then []
    else if events[0].Data? then [events[0].text] + AllTexts(events[1..])
    else AllTexts(events[1..])
  }

  lemma {:induction false} TextsSplit(tokens: seq<Token>, more: seq<Token>)
    ensures Texts(tokens + more) == Texts(tokens) + Texts(more)
    decreases |more|
  {
    if more == [] {
      assert tokens + more == tokens;
    } else {
      assert (tokens + more)[..|tokens + more| - 1] == tokens + more[..|more| - 1];
      TextsSplit(tokens, more[..|more| - 1]);
    }
  }

  lemma {:induction false} ClosingHasNoText(open: seq<string>)
    ensures Texts(Closing(open)) == []
    decreases |open|
  {
    if open != [] {
      var first, rest := [Close(open[|open| - 1])], Closing(open[..|open| - 1]);
      TextsSplit(first, rest);
      ClosingHasNoText(open[..|open| - 1]);
      assert first[..0] == [] && Texts(first) == [];
    }
  }

  lemma StepTexts(s: State, e: Event)
    ensures Step(s, e).skip == Depth(s.skip, e)
    ensures Texts(Step(s, e).out) == Texts(s.out) + if e.Data? && s.skip == 0 then [e.text] else []
  {
    hide Texts, IsAllowedTag, IsDroppedTag, IsVoidTag, KeptAttrs, Lower, Closing;
    match e
    case StartTag(raw, attrs) =>
      TextsOneMore(s.out, Open(Lower(raw), KeptAttrs(Lower(raw), attrs)));
    case EndTag(raw) =>
      if Lower(raw) in s.open {
        var k := LastOpen(s.open, Lower(raw));
        TextsSplit(s.out, Closing(s.open[k..]));
        ClosingHasNoText(s.open[k..]);
      }
    case Data(text) =>
      TextsOneMore(s.out, Text(text));
  }

  lemma TextsOneMore(tokens: seq<Token>, t: Token)
    ensures Texts(tokens + [t]) == Texts(tokens) + if t.Text? then [t.text] else []
  {
    assert (tokens + [t])[..|tokens|] == tokens;
  }

  lemma Regrouped(a: seq<string>, b: seq<string>, c: seq<string>)
    ensures (a + b) + c == a + (b + c)
  {
  }

  lemma {:induction false} RunTexts(s: State, events: seq<Event>)
    ensures Texts(Run(s, events).out) == Texts(s.out) + VisibleTexts(events, s.skip)
    decreases |events|
  {
    hide Step, Texts, Depth;
    if events == [] {
      assert Texts(s.out) + [] == Texts(s.out);
    } else {
      var e, t := events[0], Step(s, events[0]);
      StepTexts(s, e);
      RunTexts(t, events[1..]);
      var shown, later := if e.Data? && s.skip == 0 then [e.text] else [], VisibleTexts(events[1..], Depth(s.skip, e));
      assert VisibleTexts(events, s.skip) == shown + later;
      Regrouped(Texts(s.out), shown, later);
    }
  }

  /** The output carries exactly the texts met outside dropped-content tags, in order. */
  lemma OutputTextIsTheVisibleText(events: seq<Event>)
    ensures Texts(Sanitized(events)) == VisibleTexts(events, 0)
  {
    RunTexts(Fresh, events);
    var s := Run(Fresh, events);
    TextsSplit(s.out, Closing(s.open));
    ClosingHasNoText(s.open);
  }

  /** No text comes while a dropped-content tag is open. */
  predicate NoTextDropped(events: seq<Event>, skip: nat)
    decreases |events|
  {
    events == [] ||
    ((events[0].Data? ==> skip == 0) && NoTextDropped(events[1..], Depth(skip, events[0])))
  }

  lemma {:induction false} VisibleIsAllIff(events: seq<Event>, skip: nat)
    ensures |VisibleTexts(events, skip)| <= |AllTexts(events)|
    ensures VisibleTexts(events, skip) == AllTexts(events) <==> NoTextDropped(events, skip)
    decreases |events|
  {
    if events != [] {
      VisibleIsAllIff(events[1..], Depth(skip, events[0]));
      if events[0].Data? && skip == 0 {
        var visible, all := VisibleTexts(events[1..], skip), AllTexts(events[1..]);
        assert VisibleTexts(events, skip) == [events[0].text] + visible && AllTexts(events) == [events[0].text] + all;
        assert ([events[0].text] + visible)[1..] == visible && ([events[0].text] + all)[1..] == all;
        assert visible == all <==> NoTextDropped(events[1..], skip);
      }
    }
  }

  /** The text always survives exactly when none of it comes inside a dropped-content tag. */
  lemma TextSurvivesIffNoneDropped(events: seq<Event>)
    ensures Texts(Sanitized(events)) == AllTexts(events) <==> NoTextDropped(events, 0)
  {
    OutputTextIsTheVisibleText(events);
    VisibleIsAllIff(events, 0);
  }

  lemma {:induction false} NothingVisibleWithoutAnEndTag(events: seq<Event>, skip: nat)
    requires skip > 0 && forall e | e in events && e.EndTag? :: !IsDroppedTag(Lower(e.tag))
    ensures VisibleTexts(events, skip) == []
    decreases |events|
  {
    hide IsDroppedTag, Lower;
    if events != [] {
      assert events[0] in events;
      NothingVisibleWithoutAnEndTag(events[1..], Depth(skip, events[0]));
    }
  }

  lemma {:induction false} NothingVisibleAfter(before: seq<Event>, start: Event, events: seq<Event>, skip: nat)
    requires start.StartTag? && IsDroppedTag(Lower(start.tag))
    requires forall e | e in events && e.EndTag? :: !IsDroppedTag(Lower(e.tag))
    ensures VisibleTexts(before + [start] + events, skip) == VisibleTexts(before, skip)
    decreases |before|
  {
    hide IsDroppedTag, Lower;
    var all := before + [start] + events;
    if before == [] {
      assert all[0] == start && all[1..] == events;
      NothingVisibleWithoutAnEndTag(events, skip + 1);
    } else {
      assert all[0] == before[0] && all[1..] == before[1..] + [start] + events;
      NothingVisibleAfter(before[1..], start, events, Depth(skip, before[0]));
    }
  }

  /** A dropped-content tag that no dropped-content end tag follows takes all the text after it with
      it, wherever it stands: the output shows the texts before it and nothing else. */
  lemma UnclosedTagSwallowsTheRest(before: seq<Event>, tag: string, attrs: seq<Attr>, events: seq<Event>)
    requires IsDroppedTag(Lower(tag)) && forall e | e in events && e.EndTag? :: !IsDroppedTag(Lower(e.tag))
    ensures Texts(Sanitized(before + [StartTag(tag, attrs)] + events)) == Texts(Sanitized(before))
  {
    OutputTextIsTheVisibleText(before);
    OutputTextIsTheVisibleText(before + [StartTag(tag, attrs)] + events);
    hide *;
    NothingVisibleAfter(before, StartTag(tag, attrs), events, 0);
  }

  // ---- which attributes survive, said without the filter's own checks ----

  predicate IsBlank(c: char) {
    c == ' ' || '\t' <= c <= '\r' || 28 <= c as int <= 31
  }

  /** The text begins with the scheme http or https, in any mixture of cases, and two slashes. */
  predicate BeginsWithHttp(s: string) {
    |s| >= 7 && s[0] in {'h', 'H'} && s[1] in {'t', 'T'} && s[2] in {'t', 'T'} && s[3] in {'p', 'P'} &&
    (s[4..7] == "://" || (|s| >= 8 && s[4] in {'s', 'S'} && s[5..8] == "://"))
  }

  /** Past its leading blanks the value is an http or https URL. */
  ghost predicate IsHttpUrl(url: string) {
    exists k :: 0 <= k <= |url| && (forall j | 0 <= j < k :: IsBlank(url[j])) && BeginsWithHttp(url[k..])
  }

  predicate StaysInsideQuotes(url: string) {
    '"' !in url && '\'' !in url && '<' !in url && '>' !in url && '\n' !in url && '\r' !in url
  }

  lemma LowerCharMeans(c: char)
    ensures LowerChar(c) == 'h' <==> c in {'h', 'H'}
    ensures LowerChar(c) == 't' <==> c in {'t', 'T'}
    ensures LowerChar(c) == 'p' <==> c in {'p', 'P'}
    ensures LowerChar(c) == 's' <==> c in {'s', 'S'}
    ensures LowerChar(c) == ':' <==> c == ':'
    ensures LowerChar(c) == '/' <==> c == '/'
  {
  }

  lemma LowerBegins(s: string)
    ensures "http://" <= Lower(s) || "https://" <= Lower(s) <==> BeginsWithHttp(s)
  {
    forall k | 0 <= k < |s|
      ensures Lower(s)[k] == LowerChar(s[k])
      ensures LowerChar(s[k]) == 'h' <==> s[k] in {'h', 'H'}
      ensures LowerChar(s[k]) == 't' <==> s[k] in {'t', 'T'}
      ensures LowerChar(s[k]) == 'p' <==> s[k] in {'p', 'P'}
      ensures LowerChar(s[k]) == 's' <==> s[k] in {'s', 'S'}
      ensures LowerChar(s[k]) == ':' <==> s[k] == ':'
      ensures LowerChar(s[k]) == '/' <==> s[k] == '/'
    {
      LowerCharMeans(s[k]);
    }
    hide LowerChar;
    var t := Lower(s);
    hide Lower;
    if |s| >= 7 {
      assert "http://" <= t <==>
             t[0] == 'h' && t[1] == 't' && t[2] == 't' && t[3] == 'p' && t[4] == ':' && t[5] == '/' && t[6] == '/';
      assert s[4..7] == [s[4], s[5], s[6]];
      assert s[4..7] == "://" <==> s[4] == ':' && s[5] == '/' && s[6] == '/';
    }
    if |s| >= 8 {
      assert "https://" <= t <==>
             t[0] == 'h' && t[1] == 't' && t[2] == 't' && t[3] == 'p' && t[4] == 's' && t[5] == ':' && t[6] == '/' && t[7] == '/';
      assert s[5..8] == [s[5], s[6], s[7]];
      assert s[5..8] == "://" <==> s[5] == ':' && s[6] == '/' && s[7] == '/';
    }
  }

  lemma {:induction false} Stripped(s: string) returns (k: nat)
    ensures k <= |s| && StripLeft(s) == s[k..] && (forall j | 0 <= j < k :: IsBlank(s[j])) && (k < |s| ==> !IsBlank(s[k]))
    decreases |s|
  {
    k := 0;
    if s != [] && IsSpace(s[0]) {
      k := Stripped(s[1..]);
      k := k + 1;
    }
  }

  /** The check on a URL is that it is http or https and holds none of the six characters. */
  lemma SafeUrlIff(url: string)
    ensures IsSafeUrl(url) <==> IsHttpUrl(url) && StaysInsideQuotes(url)
  {
    var k := Stripped(url);
    LowerBegins(url[k..]);
    if IsHttpUrl(url) {
      var m :| 0 <= m <= |url| && (forall j | 0 <= j < m :: IsBlank(url[j])) && BeginsWithHttp(url[m..]);
      assert url[m] == url[m..][0];
      assert m == k;
    }
    hide Lower, StripLeft;
  }

  /** An attribute that can do no harm on its tag: a link to an http or https address, a title, or the
      digits of a table cell's span. */
  ghost predicate IsHarmless(tag: string, a: KeptAttr) {
    (tag == "a" && a.name == "href" && IsHttpUrl(a.value) && StaysInsideQuotes(a.value)) ||
    (tag == "a" && a.name == "title") ||
    ((tag == "td" || tag == "th") && (a.name == "colspan" || a.name == "rowspan") &&
     a.value != "" && forall c | c in a.value :: '0' <= c <= '9')
  }

  lemma KeptIffHarmless(tag: string, a: KeptAttr)
    ensures Keeps(tag, a.name, a.value) <==> IsHarmless(tag, a)
  {
    SafeUrlIff(a.value);
    hide IsSafeUrl, IsHttpUrl, StaysInsideQuotes;
  }

  /** For every input, every attribute of every tag in the output is harmless: no link of another scheme
      survives. */
  lemma OutputAttributesAreHarmless(events: seq<Event>, t: Token, a: KeptAttr)
    requires t in Sanitized(events) && t.Open? && a in t.attrs
    ensures IsHarmless(t.tag, a)
    ensures t.tag !in {"script", "style", "iframe", "object", "embed", "template"}
  {
    OutputIsWellNestedAndAllowed(events);
    KeptIffHarmless(t.tag, a);
    hide Keeps, IsHarmless, Sanitized;
    assert AllowedToken(t);
  }

  /** How many dropped-content tags are open after some events. */
  function DepthAfter(skip: nat, events: seq<Event>): nat
    decreases |events|
  {
    if events == [] then skip else DepthAfter(Depth(skip, events[0]), events[1..])
  }

  lemma {:induction false} RunDepth(s: State, events: seq<Event>)
    ensures Run(s, events).skip == DepthAfter(s.skip, events)
    decreases |events|
  {
    hide Step, Depth;
    if events != [] {
      StepTexts(s, events[0]);
      RunDepth(Step(s, events[0]), events[1..]);
    }
  }

  lemma {:induction false} RunGrows(s: State, events: seq<Event>)
    ensures s.out <= Run(s, events).out
    decreases |events|
  {
    if events != [] {
      StepGrows(s, events[0]);
      hide Step;
      RunGrows(Step(s, events[0]), events[1..]);
    }
  }

  lemma StepGrows(s: State, e: Event)
    ensures s.out <= Step(s, e).out
  {
    hide IsAllowedTag, IsDroppedTag, IsVoidTag, KeptAttrs, Lower, Closing;
  }

  lemma {:induction false} RunInTwo(s: State, before: seq<Event>, after: seq<Event>)
    ensures Run(s, before + after) == Run(Run(s, before), after)
    decreases |before|
  {
    hide Step;
    if before == [] {
      assert before + after == after;
    } else {
      assert (before + after)[1..] == before[1..] + after;
      RunInTwo(Step(s, before[0]), before[1..], after);
    }
  }

  lemma {:induction false} HarmlessIsKept(tag: string, attrs: seq<Attr>, j: nat)
    requires j < |attrs| && attrs[j].value.Some? && IsHarmless(tag, KeptAttr(Lower(attrs[j].name), attrs[j].value.value))
    ensures KeptAttr(Lower(attrs[j].name), attrs[j].value.value) in KeptAttrs(tag, attrs)
    decreases |attrs|
  {
    KeptIffHarmless(tag, KeptAttr(Lower(attrs[j].name), attrs[j].value.value));
    hide Keeps, IsHarmless, Lower;
    if j > 0 {
      HarmlessIsKept(tag, attrs[1..], j - 1);
    }
  }

  lemma StartIsEmitted(s: State, e: Event)
    requires s.skip == 0 && e.StartTag? && IsAllowedTag(Lower(e.tag))
    ensures Step(s, e).out == s.out + [Open(Lower(e.tag), KeptAttrs(Lower(e.tag), e.attrs))]
  {
    hide IsVoidTag, KeptAttrs, Lower;
  }

  /** And every harmless attribute of a visible allowed tag is in the output, unchanged. */
  lemma HarmlessAttributesSurvive(before: seq<Event>, e: Event, after: seq<Event>, j: nat)
    requires DepthAfter(0, before) == 0 && e.StartTag? && IsAllowedTag(Lower(e.tag))
    requires j < |e.attrs| && e.attrs[j].value.Some?
    requires IsHarmless(Lower(e.tag), KeptAttr(Lower(e.attrs[j].name), e.attrs[j].value.value))
    ensures exists t :: t in Sanitized(before + [e] + after) && t.Open? && t.tag == Lower(e.tag) &&
                        KeptAttr(Lower(e.attrs[j].name), e.attrs[j].value.value) in t.attrs
  {
    var s := Run(Fresh, before);
    RunDepth(Fresh, before);
    StartIsEmitted(s, e);
    HarmlessIsKept(Lower(e.tag), e.attrs, j);
    assert [e][1..] == [];
    assert Run(s, [e]) == Step(s, e);
    RunInTwo(Fresh, before, [e]);
    RunInTwo(Fresh, before + [e], after);
    RunGrows(Step(s, e), after);
    var t := Open(Lower(e.tag), KeptAttrs(Lower(e.tag), e.attrs));
    hide Step, IsHarmless, KeptAttrs, Lower, IsAllowedTag, Closing;
    assert Step(s, e).out[|s.out|] == t;
    var all := Run(Fresh, before + [e] + after);
    assert all.out[|s.out|] == t;
    assert (all.out + Closing(all.open))[|s.out|] == t;
    assert t in Sanitized(before + [e] + after);
  }

  // ---- sanitizing the output again ----

  /** The events a parser reports for one emitted token. */
  function AsEvent(t: Token): Event {
    match t
    case Open(tag, attrs) => StartTag(tag, seq(|attrs|, k requires 0 <= k < |attrs| => Attr(attrs[k].name, Some(attrs[k].value))))
    case Close(tag) => EndTag(tag)
    case Text(text) => Data(text)
  }

  function AsEvents(tokens: seq<Token>): (events: seq<Event>)
    ensures |events| == |tokens|
  {
    seq(|tokens|, k requires 0 <= k < |tokens| => AsEvent(tokens[k]))
  }

  lemma {:induction false} KeptAttrsAreKeptAgain(tag: string, kept: seq<KeptAttr>, attrs: seq<Attr>)
    requires |attrs| == |kept| && forall k | 0 <= k < |kept| :: attrs[k] == Attr(kept[k].name, Some(kept[k].value))
    requires forall a | a in kept :: Keeps(tag, a.name, a.value) && Lower(a.name) == a.name
    ensures KeptAttrs(tag, attrs) == kept
    decreases |kept|
  {
    hide Lower, Keeps;
    if kept != [] {
      assert kept[0] in kept;
      KeptAttrsAreKeptAgain(tag, kept[1..], attrs[1..]);
    }
  }

  lemma {:induction false} RunOnOwnTokens(s: State, tokens: seq<Token>)
    requires s.skip == 0 && AllAllowed(tokens) && Nesting(tokens, s.open).Some?
    ensures Run(s, AsEvents(tokens)) == State(s.out + tokens, Nesting(tokens, s.open).value, 0)
    decreases |tokens|
  {
    hide *;
    if tokens == [] {
      NoTokens(s);
    } else {
      var t, rest := tokens[0], tokens[1..];
      FirstOwnToken(s, tokens);
      var next := Step(s, AsEvent(t));
      RunOnOwnTokens(next, rest);
      assert s.out + [t] + rest == s.out + tokens;
    }
  }

  lemma NoTokens(s: State)
    ensures Run(s, AsEvents([])) == s && Nesting([], s.open) == Some(s.open) && s.out + [] == s.out
  {
  }

  /** The first of the tokens, met again as an event, is emitted again and leaves the rest to nest. */
  lemma FirstOwnToken(s: State, tokens: seq<Token>)
    requires s.skip == 0 && tokens != [] && AllAllowed(tokens) && Nesting(tokens, s.open).Some?
    ensures var next := Step(s, AsEvent(tokens[0]));
            next.out == s.out + [tokens[0]] && next.skip == 0 && Nesting(tokens, s.open) == Nesting(tokens[1..], next.open) &&
            AllAllowed(tokens[1..]) && Run(s, AsEvents(tokens)) == Run(next, AsEvents(tokens[1..]))
  {
    hide IsVoidTag, AllowedToken, Step, AsEvent;
    assert tokens[0] in tokens;
    assert AsEvents(tokens)[1..] == AsEvents(tokens[1..]);
    StepOnOwnToken(s, tokens[0]);
  }

  lemma StepOnOwnToken(s: State, t: Token)
    requires s.skip == 0 && AllowedToken(t) && (t.Close? ==> s.open != [] && s.open[|s.open| - 1] == t.tag)
    ensures Step(s, AsEvent(t)) ==
            State(s.out + [t],
                  match t
                  case Open(tag, _) => if IsVoidTag(tag) then s.open else s.open + [tag]
                  case Close(_) => s.open[..|s.open| - 1]
                  case Text(_) => s.open,
                  0)
  {
    hide IsAllowedTag, IsDroppedTag, IsVoidTag, Keeps, KeptAttrs, Lower;
    match t
    case Open(tag, attrs) =>
      KeptAttrsAreKeptAgain(tag, attrs, AsEvent(t).attrs);
    case Close(tag) =>
      var n := |s.open| - 1;
      assert LastOpen(s.open, tag) == n;
      assert s.open[n..] == [tag];
      assert [tag][..0] == [] && Closing([tag]) == [Close(tag)];
    case Text(_) =>
  }

  /** Sanitizing is idempotent: the output's own tokens, parsed again, come back unchanged. */
  lemma SanitizingAgainChangesNothing(events: seq<Event>)
    ensures Sanitized(AsEvents(Sanitized(events))) == Sanitized(events)
  {
    OutputIsWellNestedAndAllowed(events);
    var tokens := Sanitized(events);
    RunOnOwnTokens(Fresh, tokens);
    assert [] + tokens == tokens;
  }
}
