/** The sanitizer's output as text: what a page reads from it is the tokens and nothing else. */
module SafeMarkup {
  import opened PyValues
  import opened Sanitizer

  // ---- escaping ----

  function Replaced(s: string, c: char, entity: string): string {
    if s == "" then "" else (if s[0] == c then entity else [s[0]]) + Replaced(s[1..], c, entity)
  }

  /** Five replacements in turn, the ampersand first. */
  function Escape(s: string): string {
    var t := Replaced(Replaced(Replaced(s, '&', "&amp;"), '<', "&lt;"), '>', "&gt;");
    Replaced(Replaced(t, '"', "&quot;"), '\'', "&#x27;")
  }

  function Entity(c: char): string {
    if c == '&' then "&amp;"
    else if c == '<' then "&lt;"
    else if c == '>' then "&gt;"
    else if c == '"' then "&quot;"
    else if c == '\'' then "&#x27;"
    else [c]
  }

  /** The same, character by character. */
  function Escaped(s: string): string {
    if s == "" then "" else Entity(s[0]) + Escaped(s[1..])
  }

  lemma {:induction false} ReplacedSplits(s: string, t: string, c: char, entity: string)
    ensures Replaced(s + t, c, entity) == Replaced(s, c, entity) + Replaced(t, c, entity)
    decreases |s|
  {
    if s == "" {
      assert s + t == t;
    } else {
      assert (s + t)[1..] == s[1..] + t;
      ReplacedSplits(s[1..], t, c, entity);
    }
  }

  lemma {:induction false} NothingToReplace(s: string, c: char, entity: string)
    requires c !in s
    ensures Replaced(s, c, entity) == s
    decreases |s|
  {
    if s != "" {
      NothingToReplace(s[1..], c, entity);
    }
  }

  lemma ReplacedOne(c: char, entity: string)
    ensures Replaced([c], c, entity) == entity
  {
    assert [c][1..] == "";
  }

  lemma EscapeOne(c: char)
    ensures Escape([c]) == Entity(c)
  {
    hide Replaced;
    if c == '&' {
      ReplacedOne(c, "&amp;");
      NothingToReplace("&amp;", '<', "&lt;");
      NothingToReplace("&amp;", '>', "&gt;");
      NothingToReplace("&amp;", '"', "&quot;");
      NothingToReplace("&amp;", '\'', "&#x27;");
    } else {
      NothingToReplace([c], '&', "&amp;");
      if c == '<' {
        ReplacedOne(c, "&lt;");
        NothingToReplace("&lt;", '>', "&gt;");
        NothingToReplace("&lt;", '"', "&quot;");
        NothingToReplace("&lt;", '\'', "&#x27;");
      } else {
        NothingToReplace([c], '<', "&lt;");
        if c == '>' {
          ReplacedOne(c, "&gt;");
          NothingToReplace("&gt;", '"', "&quot;");
          NothingToReplace("&gt;", '\'', "&#x27;");
        } else {
          NothingToReplace([c], '>', "&gt;");
          if c == '"' {
            ReplacedOne(c, "&quot;");
            NothingToReplace("&quot;", '\'', "&#x27;");
          } else {
            NothingToReplace([c], '"', "&quot;");
            if c == '\'' {
              ReplacedOne(c, "&#x27;");
            } else {
              NothingToReplace([c], '\'', "&#x27;");
            }
          }
        }
      }
    }
  }

  lemma EscapeSplits(s: string, t: string)
    ensures Escape(s + t) == Escape(s) + Escape(t)
  {
    hide Replaced;
    ReplacedSplits(s, t, '&', "&amp;");
    var s1, t1 := Replaced(s, '&', "&amp;"), Replaced(t, '&', "&amp;");
    ReplacedSplits(s1, t1, '<', "&lt;");
    var s2, t2 := Replaced(s1, '<', "&lt;"), Replaced(t1, '<', "&lt;");
    ReplacedSplits(s2, t2, '>', "&gt;");
    var s3, t3 := Replaced(s2, '>', "&gt;"), Replaced(t2, '>', "&gt;");
    ReplacedSplits(s3, t3, '"', "&quot;");
    ReplacedSplits(Replaced(s3, '"', "&quot;"), Replaced(t3, '"', "&quot;"), '\'', "&#x27;");
  }

  /** Replacing the five characters in turn is replacing each character once: no replacement touches
      what an earlier one put in. */
  lemma {:induction false} EscapeIsOneByOne(s: string)
    ensures Escape(s) == Escaped(s)
    decreases |s|
  {
    if s != "" {
      assert s == [s[0]] + s[1..];
      EscapeSplits([s[0]], s[1..]);
      EscapeOne(s[0]);
      hide Escape;
      EscapeIsOneByOne(s[1..]);
    }
  }

  /** Escaped text holds no character that could open or close a tag or leave an attribute. */
  lemma {:induction false} EscapedHasNoMarkup(s: string)
    ensures forall c | c in Escaped(s) :: c !in {'<', '>', '"', '\''}
    decreases |s|
  {
    if s != "" {
      EscapedHasNoMarkup(s[1..]);
    }
  }

  /** Reading entities back, from left to right. */
  function Unescape(s: string): string {
    if s == "" then ""
    else if "&amp;" <= s then "&" + Unescape(s[5..])
    else if "&lt;" <= s then "<" + Unescape(s[4..])
    else if "&gt;" <= s then ">" + Unescape(s[4..])
    else if "&quot;" <= s then "\"" + Unescape(s[6..])
    else if "&#x27;" <= s then "'" + Unescape(s[6..])
    else [s[0]] + Unescape(s[1..])
  }

  lemma UnescapeEntity(c: char, rest: string)
    ensures Unescape(Entity(c) + rest) == [c] + Unescape(rest)
  {
    var s := Entity(c) + rest;
    assert s[|Entity(c)|..] == rest;
    if c == '&' {
      assert "&amp;" <= s;
    } else if c == '<' {
      assert "&lt;" <= s && s[1] == 'l';
    } else if c == '>' {
      assert "&gt;" <= s && s[1] == 'g';
    } else if c == '"' {
      assert "&quot;" <= s && s[1] == 'q';
    } else if c == '\'' {
      assert "&#x27;" <= s && s[1] == '#';
    } else {
      assert s[0] == c;
    }
  }

  /** Nothing is lost: reading the entities back gives the text. */
  lemma {:induction false} UnescapeUndoesEscape(s: string)
    ensures Unescape(Escape(s)) == s
    decreases |s|
  {
    EscapeIsOneByOne(s);
    if s != "" {
      UnescapeEntity(s[0], Escaped(s[1..]));
      EscapeIsOneByOne(s[1..]);
      UnescapeUndoesEscape(s[1..]);
    }
  }

  // ---- the output string ----

  function RenderAttrs(attrs: seq<KeptAttr>): string {
    if attrs == [] then ""
    else " " + attrs[0].name + "=\"" + Escape(attrs[0].value) + "\"" + RenderAttrs(attrs[1..])
  }

  function RenderToken(t: Token): string {
    match t
    case Open(tag, attrs) => "<" + tag + RenderAttrs(attrs) + ">"
    case Close(tag) => "</" + tag + ">"
    case Text(text) => Escape(text)
  }

  function Render(tokens: seq<Token>): string {
    if tokens == [] then "" else RenderToken(tokens[0]) + Render(tokens[1..])
  }

  // ---- reading it ----

  /** What a reader of HTML sees: tags with their attributes, and the text between them. */
  datatype Piece = Started(tag: string, attrs: seq<KeptAttr>) | Ended(tag: string) | Chars(text: string)

  /** Where a character first stands; the size of the text when it is missing. */
  function IndexOf(s: string, c: char): (k: nat)
    ensures k <= |s| && (k < |s| ==> s[k] == c) && c !in s[..k]
  {
    if s == "" || s[0] == c then 0
    else
      var k := IndexOf(s[1..], c);
      assert s[..k + 1] == [s[0]] + s[1..][..k];
      k + 1
  }

  /** Where the name of a tag ends: at a space or at the closing bracket. */
  function NameEnd(s: string): (k: nat)
    ensures k <= |s|
  {
    if s == "" || s[0] == ' ' || s[0] == '>' then 0 else NameEnd(s[1..]) + 1
  }

  datatype TagEnd = Malformed | TagEnd(attrs: seq<KeptAttr>, rest: string)

  /** The rest of a start tag: attributes, each a space, a name, an equals sign and a value up to the
      closing quote, its entities read back; then the closing bracket. */
  function ReadAttrs(s: string): (r: TagEnd)
    ensures r.TagEnd? ==> |r.rest| < |s|
    decreases |s|
  {
    if s == "" then Malformed
    else if s[0] == '>' then TagEnd([], s[1..])
    else
      var k := IndexOf(s, '=');
      if s[0] != ' ' || k + 1 >= |s| || s[k + 1] != '"' then Malformed
      else
        var value := s[k + 2..];
        var q := IndexOf(value, '"');
        if q == |value| then Malformed
        else
          match ReadAttrs(value[q + 1..])
          case Malformed => Malformed
          case TagEnd(more, rest) => TagEnd([KeptAttr(s[1..k], Unescape(value[..q]))] + more, rest)
  }

  datatype TagRead = NoTag | TagRead(piece: Piece, rest: string)

  /** What follows an opening bracket, read as a tag. */
  function ReadTag(s: string): (r: TagRead)
    ensures r.TagRead? ==> |r.rest| < |s|
  {
    if s != "" && s[0] == '/' then
      var k := IndexOf(s, '>');
      if k == |s| then NoTag else TagRead(Ended(s[1..k]), s[k + 1..])
    else
      var k := NameEnd(s);
      match ReadAttrs(s[k..])
      case Malformed => NoTag
      case TagEnd(attrs, rest) => TagRead(Started(s[..k], attrs), rest)
  }

  /** Tags as they come, and the runs of text between them, their entities read back. */
  function Read(s: string): seq<Piece>
    decreases |s|
  {
    if s == "" then []
    else if s[0] == '<' then
      match ReadTag(s[1..])
      case NoTag => [Chars(Unescape(s))]
      case TagRead(piece, rest) => [piece] + Read(rest)
    else
      var k := IndexOf(s, '<');
      [Chars(Unescape(s[..k]))] + Read(s[k..])
  }

  function PieceOf(t: Token): Piece {
    match t
    case Open(tag, attrs) => Started(tag, attrs)
    case Close(tag) => Ended(tag)
    case Text(text) => Chars(text)
  }

  function CharsOf(text: string): seq<Piece> {
    if text == "" then [] else [Chars(text)]
  }

  /** The pieces the tokens stand for: neighbouring texts run together, after `text` before them. */
  function Pieces(text: string, tokens: seq<Token>): seq<Piece>
    decreases |tokens|
  {
    if tokens == [] then CharsOf(text)
    else if tokens[0].Text? then Pieces(text + tokens[0].text, tokens[1..])
    else CharsOf(text) + ([PieceOf(tokens[0])] + Pieces("", tokens[1..]))
  }

  predicate IsPlain(s: string) {
    s != "" && forall c | c in s :: c !in {'<', '>', '"', '\'', '&', ' ', '=', '/'}
  }

  lemma Regroup(a: string, b: string, c: string)
    ensures (a + b) + c == a + (b + c)
  {
  }

  lemma AllowedTagsArePlain(tag: string)
    requires IsAllowedTag(tag)
    ensures IsPlain(tag)
  {
  }

  lemma AllowedAttributesArePlain(tag: string, name: string)
    requires name in AllowedAttributes(tag)
    ensures IsPlain(name)
  {
  }

  lemma {:induction false} FoundAfter(before: string, c: char, rest: string)
    requires c !in before
    ensures IndexOf(before + [c] + rest, c) == |before|
    decreases |before|
  {
    var s := before + [c] + rest;
    if before == "" {
      assert s[0] == c;
    } else {
      assert s[0] == before[0] && s[1..] == before[1..] + [c] + rest;
      FoundAfter(before[1..], c, rest);
    }
  }

  lemma {:induction false} NameEndsAfter(name: string, rest: string)
    requires ' ' !in name && '>' !in name && rest != "" && rest[0] in {' ', '>'}
    ensures NameEnd(name + rest) == |name|
    decreases |name|
  {
    if name == "" {
      assert name + rest == rest;
    } else {
      assert (name + rest)[1..] == name[1..] + rest;
      NameEndsAfter(name[1..], rest);
    }
  }

  /** The text up to the first `c`, and the text after it. */
  lemma AfterFound(before: string, c: char, rest: string)
    requires c !in before
    ensures var s := before + [c] + rest;
            IndexOf(s, c) == |before| && s[..|before|] == before && s[|before|] == c && s[|before| + 1..] == rest
  {
    FoundAfter(before, c, rest);
    hide IndexOf;
  }

  lemma AttrParts(name: string, after: string)
    requires '=' !in name && after != ""
    ensures var s := (" " + name) + ['='] + after; var k := |name| + 1;
            IndexOf(s, '=') == k && k + 1 < |s| && s[0] == ' ' && s[k + 1] == after[0] && s[1..k] == name && s[k + 2..] == after[1..]
  {
    AfterFound(" " + name, '=', after);
    hide IndexOf;
    var s, k := (" " + name) + ['='] + after, |name| + 1;
    assert s[1..k] == s[..k][1..] == name;
    assert s[k + 1..][1..] == s[k + 2..];
    assert s[k + 1] == s[k + 1..][0];
  }

  /** An attribute whose value holds no quote ends at its closing quote. */
  lemma ReadQuoted(name: string, quoted: string, tail: string)
    requires '=' !in name && '"' !in quoted && ReadAttrs(tail).TagEnd?
    ensures ReadAttrs((" " + name) + ['='] + (['"'] + (quoted + ['"'] + tail))) ==
            TagEnd([KeptAttr(name, Unescape(quoted))] + ReadAttrs(tail).attrs, ReadAttrs(tail).rest)
  {
    var value := quoted + ['"'] + tail;
    AfterFound(quoted, '"', tail);
    assert (['"'] + value)[1..] == value;
    AttrParts(name, ['"'] + value);
    hide Unescape, IndexOf;
  }

  lemma AttrGroups(name: string, quoted: string, tail: string)
    ensures " " + name + "=\"" + quoted + "\"" + tail == (" " + name) + ['='] + (['"'] + (quoted + ['"'] + tail))
  {
    assert "=\"" == ['='] + ['"'];
    Regroup(" " + name, ['='], ['"']);
    Regroup((" " + name) + ['='], ['"'], quoted);
    Regroup((" " + name) + ['='], ['"'] + quoted, ['"']);
    Regroup((" " + name) + ['='], ['"'] + quoted + ['"'], tail);
    Regroup(['"'], quoted, ['"']);
    Regroup(['"'], quoted + ['"'], tail);
  }

  /** One rendered attribute is read as itself: no quote inside its value ends it early. */
  lemma ReadOneAttr(name: string, value: string, tail: string)
    requires IsPlain(name) && ReadAttrs(tail).TagEnd?
    ensures ReadAttrs(" " + name + "=\"" + Escape(value) + "\"" + tail) ==
            TagEnd([KeptAttr(name, value)] + ReadAttrs(tail).attrs, ReadAttrs(tail).rest)
  {
    EscapeIsOneByOne(value);
    EscapedHasNoMarkup(value);
    UnescapeUndoesEscape(value);
    assert '=' !in name && '"' !in Escape(value);
    hide *;
    ReadQuoted(name, Escape(value), tail);
    AttrGroups(name, Escape(value), tail);
  }

  lemma RenderAttrsFront(attrs: seq<KeptAttr>, rest: string)
    requires attrs != []
    ensures RenderAttrs(attrs) + (">" + rest) ==
            " " + attrs[0].name + "=\"" + Escape(attrs[0].value) + "\"" + (RenderAttrs(attrs[1..]) + (">" + rest))
  {
    hide Escape;
    var front := " " + attrs[0].name + "=\"" + Escape(attrs[0].value) + "\"";
    assert RenderAttrs(attrs) == front + RenderAttrs(attrs[1..]);
    hide RenderAttrs;
    assert (front + RenderAttrs(attrs[1..])) + (">" + rest) == front + (RenderAttrs(attrs[1..]) + (">" + rest));
  }

  lemma {:induction false} AttrsReadBack(tag: string, attrs: seq<KeptAttr>, rest: string)
    requires forall a | a in attrs :: Keeps(tag, a.name, a.value)
    ensures ReadAttrs(RenderAttrs(attrs) + (">" + rest)) == TagEnd(attrs, rest)
    decreases |attrs|
  {
    if attrs == [] {
      assert RenderAttrs(attrs) + (">" + rest) == ">" + rest;
    } else {
      assert attrs[0] in attrs;
      assert attrs[0].name in AllowedAttributes(tag);
      AllowedAttributesArePlain(tag, attrs[0].name);
      hide *;
      AttrsReadBack(tag, attrs[1..], rest);
      ReadOneAttr(attrs[0].name, attrs[0].value, RenderAttrs(attrs[1..]) + (">" + rest));
      RenderAttrsFront(attrs, rest);
      assert [attrs[0]] + attrs[1..] == attrs;
    }
  }

  lemma AttrsStart(attrs: seq<KeptAttr>, rest: string)
    ensures (RenderAttrs(attrs) + (">" + rest))[0] in {' ', '>'}
  {
    hide Escape;
  }

  /** A start tag followed by anything is read as itself, its attributes and their values included. */
  lemma StartReadsBack(tag: string, attrs: seq<KeptAttr>, rest: string)
    requires IsPlain(tag) && forall a | a in attrs :: Keeps(tag, a.name, a.value)
    ensures ReadTag(tag + (RenderAttrs(attrs) + (">" + rest))) == TagRead(Started(tag, attrs), rest)
  {
    var after := RenderAttrs(attrs) + (">" + rest);
    AttrsReadBack(tag, attrs, rest);
    AttrsStart(attrs, rest);
    NameEndsAfter(tag, after);
    assert tag[0] in tag;
    hide RenderAttrs, ReadAttrs, NameEnd, Keeps;
    var s := tag + after;
    assert s[|tag|..] == after && s[..|tag|] == tag && s[0] == tag[0];
  }

  lemma EndReadsBack(tag: string, rest: string)
    requires IsPlain(tag)
    ensures ReadTag("/" + tag + ">" + rest) == TagRead(Ended(tag), rest)
  {
    FoundAfter("/" + tag, '>', rest);
    var s := ("/" + tag) + ['>'] + rest;
    assert "/" + tag + ">" + rest == s;
    assert s[1..|tag| + 1] == tag && s[|tag| + 2..] == rest;
  }

  lemma ReadsAsTag(s: string)
    requires ReadTag(s).TagRead?
    ensures Read("<" + s) == [ReadTag(s).piece] + Read(ReadTag(s).rest)
  {
    assert ("<" + s)[1..] == s;
    hide ReadTag;
  }

  lemma OpenRendered(tag: string, attrs: seq<KeptAttr>, rest: string)
    ensures RenderToken(Open(tag, attrs)) + rest == "<" + (tag + (RenderAttrs(attrs) + (">" + rest)))
  {
    var r := RenderAttrs(attrs);
    hide RenderAttrs;
    Regroup("<" + tag + r, ">", rest);
    Regroup("<" + tag, r, ">" + rest);
    Regroup("<", tag, r + (">" + rest));
  }

  lemma CloseRendered(tag: string, rest: string)
    ensures RenderToken(Close(tag)) + rest == "<" + ("/" + tag + ">" + rest)
  {
    assert "</" == "<" + "/";
    Regroup("</" + tag, ">", rest);
    Regroup("</", tag, ">" + rest);
    Regroup("<", "/", tag + (">" + rest));
    Regroup("/" + tag, ">", rest);
    Regroup("/", tag, ">" + rest);
  }

  /** Every tag the sanitizer emits is read as itself. */
  lemma TagReadsBack(t: Token, rest: string)
    requires AllowedToken(t) && !t.Text?
    ensures Read(RenderToken(t) + rest) == [PieceOf(t)] + Read(rest)
  {
    AllowedTagsArePlain(t.tag);
    match t
    case Open(tag, attrs) =>
      StartReadsBack(tag, attrs, rest);
      OpenRendered(tag, attrs, rest);
      hide ReadTag, Read, RenderAttrs, RenderToken, Keeps, IsAllowedTag;
      ReadsAsTag(tag + (RenderAttrs(attrs) + (">" + rest)));
    case Close(tag) =>
      EndReadsBack(tag, rest);
      CloseRendered(tag, rest);
      hide ReadTag, Read, RenderToken, IsAllowedTag;
      ReadsAsTag("/" + tag + ">" + rest);
  }

  /** Escaped text up to a tag or to the end is read as the text. */
  lemma ReadText(text: string, rest: string)
    requires rest == "" || rest[0] == '<'
    ensures Read(Escape(text) + rest) == CharsOf(text) + Read(rest)
  {
    EscapeIsOneByOne(text);
    EscapedHasNoMarkup(text);
    UnescapeUndoesEscape(text);
    EscapedIsEmptyIff(text);
    var e := Escape(text);
    hide Escape, Escaped, Unescape;
    var s := e + rest;
    if text == "" {
      assert s == rest;
    } else if rest == "" {
      assert s == e && '<' !in e;
      assert IndexOf(s, '<') == |s|;
      assert s[..|s|] == e && s[|s|..] == rest;
    } else {
      FoundAfter(e, '<', rest[1..]);
      assert s == e + ['<'] + rest[1..];
      assert s[..|e|] == e && s[|e|..] == rest;
    }
  }

  lemma EscapedIsEmptyIff(text: string)
    ensures Escaped(text) == "" <==> text == ""
  {
  }

  lemma RenderTextFirst(text: string, tokens: seq<Token>)
    requires tokens != [] && tokens[0].Text?
    ensures Escape(text) + Render(tokens) == Escape(text + tokens[0].text) + Render(tokens[1..])
  {
    EscapeSplits(text, tokens[0].text);
    Regroup(Escape(text), Escape(tokens[0].text), Render(tokens[1..]));
    hide Escape;
  }

  lemma PiecesAfterText(text: string, tokens: seq<Token>)
    requires tokens != [] && tokens[0].Text?
    ensures Pieces(text, tokens) == Pieces(text + tokens[0].text, tokens[1..])
  {
    hide CharsOf;
  }

  lemma RenderTagFirst(text: string, tokens: seq<Token>)
    requires tokens != [] && !tokens[0].Text?
    ensures Render(tokens) == RenderToken(tokens[0]) + Render(tokens[1..]) && Render(tokens)[0] == '<'
    ensures Pieces(text, tokens) == CharsOf(text) + ([PieceOf(tokens[0])] + Pieces("", tokens[1..]))
  {
    hide RenderAttrs;
  }

  lemma {:induction false} ReadingGivesThePieces(text: string, tokens: seq<Token>)
    requires AllAllowed(tokens)
    ensures Read(Escape(text) + Render(tokens)) == Pieces(text, tokens)
    decreases |tokens|
  {
    hide AllowedToken, Escape, Read, Render, RenderToken, Pieces, CharsOf, PieceOf;
    if tokens == [] {
      ReadText(text, "");
      NothingRendered(text);
    } else if tokens[0].Text? {
      RenderTextFirst(text, tokens);
      PiecesAfterText(text, tokens);
      ReadingGivesThePieces(text + tokens[0].text, tokens[1..]);
    } else {
      assert tokens[0] in tokens;
      RenderTagFirst(text, tokens);
      ReadText(text, Render(tokens));
      TagReadsBack(tokens[0], Render(tokens[1..]));
      ReadingGivesThePieces("", tokens[1..]);
      EscapeNothing();
      assert "" + Render(tokens[1..]) == Render(tokens[1..]);
    }
  }

  lemma NothingRendered(text: string)
    ensures Render([]) == "" && Read("") == [] && Pieces(text, []) == CharsOf(text)
  {
  }

  lemma EscapeNothing()
    ensures Escape("") == ""
  {
  }

  /** The output string reads back as exactly the emitted tags, each with exactly its attributes and
      their values, and the texts between them, whatever the input: no text or attribute value adds,
      ends or alters a tag, or adds an attribute to one. */
  lemma OutputReadsAsItsTokens(events: seq<Event>)
    ensures Read(Render(Sanitized(events))) == Pieces("", Sanitized(events))
  {
    OutputIsWellNestedAndAllowed(events);
    ReadingGivesThePieces("", Sanitized(events));
    EscapeNothing();
    assert "" + Render(Sanitized(events)) == Render(Sanitized(events));
  }

  // ---- the text that is read ----

  function Concat(texts: seq<string>): string {
    if texts == [] then "" else Concat(texts[..|texts| - 1]) + texts[|texts| - 1]
  }

  /** The text between the tags. */
  function TextOf(pieces: seq<Piece>): string {
    if pieces == [] then "" else (if pieces[0].Chars? then pieces[0].text else "") + TextOf(pieces[1..])
  }

  lemma {:induction false} ConcatFront(first: string, texts: seq<string>)
    ensures Concat([first] + texts) == first + Concat(texts)
    decreases |texts|
  {
    var all := [first] + texts;
    if texts == [] {
      assert all[..0] == [] && Concat([first]) == "" + first;
      assert all == [first];
    } else {
      var n := |texts| - 1;
      ConcatFront(first, texts[..n]);
      assert all[..|all| - 1] == [first] + texts[..n] && all[|all| - 1] == texts[n];
    }
  }

  lemma TextsFront(tokens: seq<Token>)
    requires tokens != []
    ensures Texts(tokens) == (if tokens[0].Text? then [tokens[0].text] else []) + Texts(tokens[1..])
  {
    assert tokens == [tokens[0]] + tokens[1..];
    TextsSplit([tokens[0]], tokens[1..]);
    assert [tokens[0]][..0] == [];
  }

  lemma TextOfChars(text: string, more: seq<Piece>)
    ensures TextOf(CharsOf(text) + more) == text + TextOf(more)
  {
    if text == "" {
      assert [] + more == more;
    } else {
      assert ([Chars(text)] + more)[1..] == more;
    }
  }

  lemma TextOfTag(t: Token, more: seq<Piece>)
    requires !t.Text?
    ensures TextOf([PieceOf(t)] + more) == TextOf(more)
  {
    assert ([PieceOf(t)] + more)[1..] == more;
  }

  lemma {:induction false} TextOfPieces(text: string, tokens: seq<Token>)
    ensures TextOf(Pieces(text, tokens)) == text + Concat(Texts(tokens))
    decreases |tokens|
  {
    hide Texts, Concat, CharsOf, Pieces, TextOf, PieceOf;
    if tokens == [] {
      NoTexts();
      NothingRendered(text);
      TextOfChars(text, []);
      assert CharsOf(text) + [] == CharsOf(text);
    } else {
      TextsFront(tokens);
      var first, rest := tokens[0], tokens[1..];
      if first.Text? {
        PiecesAfterText(text, tokens);
        TextOfPieces(text + first.text, rest);
        ConcatFront(first.text, Texts(rest));
        Regroup(text, first.text, Concat(Texts(rest)));
      } else {
        RenderTagFirst(text, tokens);
        TextOfPieces("", rest);
        TextOfTag(first, Pieces("", rest));
        TextOfChars(text, [PieceOf(first)] + Pieces("", rest));
        assert [] + Texts(rest) == Texts(rest);
        assert "" + Concat(Texts(rest)) == Concat(Texts(rest));
      }
    }
  }

  lemma NoTexts()
    ensures Texts([]) == [] && Concat([]) == "" && TextOf([]) == ""
  {
  }

  /** Reading the output's text gives exactly the input's visible text, character for character. */
  lemma OutputShowsTheVisibleText(events: seq<Event>)
    ensures TextOf(Read(Render(Sanitized(events)))) == Concat(VisibleTexts(events, 0))
  {
    OutputReadsAsItsTokens(events);
    OutputTextIsTheVisibleText(events);
    TextOfPieces("", Sanitized(events));
  }
}
