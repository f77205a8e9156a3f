/**
 * The erb-style template engine (src/libgenerator/template.rs).
 *
 * A template is plain text in which every placeholder `<%= name %>` is
 * replaced by the value of `name` in a context map. The source finds the
 * placeholders with the fixed regular expression
 * `(?P<interp><%= (?P<var>[A-Za-z][A-Za-z0-9_]+) %>)+?`; here that pattern is
 * a hand-written matcher, `PlaceholderAt`, and `replace_all` is the
 * left-to-right scan `Render`.
 */
module Template {
  import opened Wrappers

  predicate IsLetter(c: char) { 'A' <= c <= 'Z' || 'a' <= c <= 'z' }

  predicate IsNameChar(c: char) { IsLetter(c) || '0' <= c <= '9' || c == '_' }

  /** A variable name as the pattern accepts it: `[A-Za-z][A-Za-z0-9_]+`, so at least two characters. */
  predicate ValidName(name: string) {
    |name| >= 2 && IsLetter(name[0]) && forall k :: 1 <= k < |name| ==> IsNameChar(name[k])
  }

  /** The text of the placeholder for `name`: exactly one space on each side of the name. */
  function Placeholder(name: string): string {
    "<%= " + name + " %>"
  }

  /** The outcome of rendering: the text, or the first placeholder whose variable the context lacks. */
  datatype Rendered = Rendered(text: string) | MissingVariable(name: string)

  /** Length of the longest prefix of `s` made of name characters. */
  function NameRun(s: string): (n: nat)
    ensures n <= |s|
    ensures forall k :: 0 <= k < n ==> IsNameChar(s[k])
    ensures n < |s| ==> !IsNameChar(s[n])
  {
    if s == [] || !IsNameChar(s[0]) then 0 else 1 + NameRun(s[1..])
  }

  /**
   * The variable of the placeholder that `s` begins with, if it begins with one:
   * the placeholder pattern matched at the first position of `s`. The name is
   * the whole run of name characters after `<%= `, since a space can never be
   * part of it.
   */
  function PlaceholderAt(s: string): (r: Option<string>)
    ensures r.Some? ==> ValidName(r.value)
    ensures r.Some? ==> |Placeholder(r.value)| <= |s| && s[..|Placeholder(r.value)|] == Placeholder(r.value)
  {
    if |s| < 5 || s[..4] != "<%= " || !IsLetter(s[4]) then None
    else
      var n := NameRun(s[4..]);
      if n < 2 || |s| < 4 + n + 3 || s[4 + n..4 + n + 3] != " %>" then None
      else
        var name := s[4..4 + n];
        assert s[..|Placeholder(name)|] == Placeholder(name) by {
          assert s[..4 + n + 3] == s[..4] + s[4..4 + n] + s[4 + n..4 + n + 3];
        }
        Some(name)
  }

  /** `text` followed by whatever `r` rendered; a missing variable stays the outcome. */
  function Prepend(text: string, r: Rendered): Rendered {
    match r
    case Rendered(rest) => Rendered(text + rest)
    case MissingVariable(_) => r
  }

  /**
   * `Template::render`: replaces every placeholder, left to right, by its
   * variable's value in `context`; all other text is copied. A placeholder
   * whose variable is not in the context stops rendering (the source's
   * `expect` panics), so only `Rendered` corresponds to a return, and the
   * source then always returns `Ok`.
   */
  function Render(input: string, context: map<string, string>): (r: Rendered)
    ensures r.MissingVariable? ==> r.name !in context && ValidName(r.name)
    decreases |input|
  {
    if input == [] then Rendered("")
    else
      match PlaceholderAt(input)
      case Some(name) =>
        if name !in context then MissingVariable(name)
        else Prepend(context[name], Render(input[|Placeholder(name)|..], context))
      case None =>
        Prepend([input[0]], Render(input[1..], context))
  }

  // ---------------------------------------------------------------------
  // The placeholder pattern

  lemma {:induction false} NameRunOfName(name: string, rest: string)
    requires forall k :: 0 <= k < |name| ==> IsNameChar(name[k])
    requires rest != [] && !IsNameChar(rest[0])
    ensures NameRun(name + rest) == |name|
  {
    if name != [] {
      assert (name + rest)[1..] == name[1..] + rest;
      NameRunOfName(name[1..], rest);
    }
  }

  /** Every well-formed placeholder is recognised, with its own name. */
  lemma PlaceholderRecognised(name: string, rest: string)
    requires ValidName(name)
    ensures PlaceholderAt(Placeholder(name) + rest) == Some(name)
  {
    var s := Placeholder(name) + rest;
    assert s[..4] == "<%= ";
    assert s[4..] == name + (" %>" + rest);
    NameRunOfName(name, " %>" + rest);
    assert s[4..4 + |name|] == name;
    assert s[4 + |name|..4 + |name| + 3] == " %>";
  }

  /** A placeholder contains `<` only at its first position. */
  lemma PlaceholderHasOneOpening(name: string, k: nat)
    requires ValidName(name) && 1 <= k < |Placeholder(name)|
    ensures Placeholder(name)[k] != '<'
  {
    if 4 <= k < 4 + |name| {
      assert Placeholder(name)[k] == name[k - 4];
    }
  }

  /** A one-letter name is not a placeholder: `<%= x %>` is left as it is. */
  lemma OneLetterNameIsLiteral(context: map<string, string>)
    ensures Render("<%= x %>", context) == Rendered("<%= x %>")
  {
    var s := "<%= x %>";
    assert NameRun(s[4..]) == 1 by {
      assert s[4..][1..] == " %>";
    }
    assert PlaceholderAt(s) == None;
    forall i | 1 <= i < |s|
      ensures PlaceholderAt(s[i..]).None?
    {
      var t := s[i..];
      assert t[0] == s[i] != '<';
      if |t| >= 5 {
        assert t[..4][0] == t[0];
      }
    }
    assert Inert(s);
    assert s + "" == s;
    LiteralCopied(s, "", context);
  }

  // ---------------------------------------------------------------------
  // Text outside placeholders

  /** No placeholder begins anywhere in `text`. */
  predicate Inert(text: string) {
    forall i :: 0 <= i < |text| ==> PlaceholderAt(text[i..]).None?
  }

  /** Text without a `<` holds no placeholder. */
  lemma InertWithoutOpening(text: string)
    requires forall k :: 0 <= k < |text| ==> text[k] != '<'
    ensures Inert(text)
  {
    forall i | 0 <= i < |text|
      ensures PlaceholderAt(text[i..]).None?
    {
      assert text[i..][0] == text[i];
    }
  }

  /**
   * A placeholder cannot straddle the end of text that holds none, when what
   * follows is empty or begins with `<`.
   */
  lemma {:induction false} NoPlaceholderAcross(x: string, y: string)
    requires x != [] && PlaceholderAt(x).None?
    requires y == [] || y[0] == '<'
    ensures PlaceholderAt(x + y).None?
  {
    var s := x + y;
    if PlaceholderAt(s).Some? {
      var name := PlaceholderAt(s).value;
      var p := Placeholder(name);
      if |p| <= |x| {
        assert x[..|p|] == s[..|p|];
        assert x == p + x[|p|..];
        PlaceholderRecognised(name, x[|p|..]);
        assert false;
      } else {
        assert s[|x|] == y[0] == '<';
        assert p[|x|] == s[|x|];
        PlaceholderHasOneOpening(name, |x|);
        assert false;
      }
    }
  }

  /** Prepending twice is prepending the concatenation. */
  lemma PrependTwice(a: string, b: string, r: Rendered)
    ensures Prepend(a, Prepend(b, r)) == Prepend(a + b, r)
  {
    match r
    case Rendered(t) => assert a + (b + t) == (a + b) + t;
    case MissingVariable(_) =>
  }

  /** Text without placeholders is copied unchanged in front of what follows it. */
  lemma {:induction false} LiteralCopied(text: string, rest: string, context: map<string, string>)
    requires Inert(text)
    requires rest == [] || rest[0] == '<'
    ensures Render(text + rest, context) == Prepend(text, Render(rest, context))
  {
    if text == [] {
      assert text + rest == rest;
      PrependTwice([], [], Render(rest, context));
    } else {
      var s := text + rest;
      var tail := text[1..];
      assert PlaceholderAt(text).None? by {
        assert text[0..] == text;
      }
      NoPlaceholderAcross(text, rest);
      assert Render(s, context) == Prepend([text[0]], Render(s[1..], context));
      assert s[1..] == tail + rest;
      assert Inert(tail) by {
        forall i | 0 <= i < |tail|
          ensures PlaceholderAt(tail[i..]).None?
        {
          assert tail[i..] == text[i + 1..];
        }
      }
      LiteralCopied(tail, rest, context);
      PrependTwice([text[0]], tail, Render(rest, context));
      assert [text[0]] + tail == text;
    }
  }

  /** A placeholder is replaced by its variable's value, or stops rendering if the context lacks it. */
  lemma PlaceholderReplaced(name: string, rest: string, context: map<string, string>)
    requires ValidName(name)
    ensures Render(Placeholder(name) + rest, context) ==
      if name in context then Prepend(context[name], Render(rest, context)) else MissingVariable(name)
  {
    PlaceholderRecognised(name, rest);
    assert (Placeholder(name) + rest)[|Placeholder(name)|..] == rest;
  }

  // ---------------------------------------------------------------------
  // Reference semantics: a template as a sequence of segments

  datatype Segment = Lit(text: string) | Var(name: string)

  /** The template text that the segments spell. */
  function Compose(segments: seq<Segment>): string {
    if segments == [] then ""
    else
      (match segments[0] case Lit(t) => t case Var(n) => Placeholder(n)) + Compose(segments[1..])
  }

  /** What rendering is meant to do: each variable replaced by its value, the first missing one reported. */
  function Expand(segments: seq<Segment>, context: map<string, string>): Rendered {
    if segments == [] then Rendered("")
    else
      match segments[0]
      case Lit(t) => Prepend(t, Expand(segments[1..], context))
      case Var(n) =>
        if n in context then Prepend(context[n], Expand(segments[1..], context)) else MissingVariable(n)
  }

  /**
   * Segments whose text is read back as exactly these segments: variables
   * have valid names, literal text holds no placeholder, and no two literals
   * are adjacent (their junction could form one).
   */
  predicate WellFormed(segments: seq<Segment>) {
    && (forall k :: 0 <= k < |segments| && segments[k].Var? ==> ValidName(segments[k].name))
    && (forall k :: 0 <= k < |segments| && segments[k].Lit? ==> Inert(segments[k].text))
    && (forall k :: 0 <= k < |segments| - 1 && segments[k].Lit? ==> segments[k + 1].Var?)
  }

  lemma {:induction false} ComposeStartsWithOpening(segments: seq<Segment>)
    requires WellFormed(segments) && (segments == [] || segments[0].Var?)
    ensures Compose(segments) == [] || Compose(segments)[0] == '<'
  {
    if segments != [] {
      assert Compose(segments) == Placeholder(segments[0].name) + Compose(segments[1..]);
    }
  }

  /** Rendering the text of well-formed segments performs exactly their expansion. */
  lemma {:induction false} RenderMatchesExpand(segments: seq<Segment>, context: map<string, string>)
    requires WellFormed(segments)
    ensures Render(Compose(segments), context) == Expand(segments, context)
  {
    if segments != [] {
      var tail := segments[1..];
      assert WellFormed(tail) by {
        assert forall k :: 0 <= k < |tail| ==> tail[k] == segments[k + 1];
      }
      RenderMatchesExpand(tail, context);
      match segments[0]
      case Lit(t) =>
        ComposeStartsWithOpening(tail);
        LiteralCopied(t, Compose(tail), context);
      case Var(n) =>
        PlaceholderReplaced(n, Compose(tail), context);
    }
  }

  /** A placeholder at the start of a text is still recognised, with the same name, whatever follows the text. */
  lemma PlaceholderAtPrefix(x: string, y: string)
    requires PlaceholderAt(x).Some?
    ensures PlaceholderAt(x + y) == PlaceholderAt(x)
  {
    var name := PlaceholderAt(x).value;
    var p := Placeholder(name);
    var tail := x[|p|..];
    assert x == p + tail;
    assert x + y == p + (tail + y);
    PlaceholderRecognised(name, tail);
    PlaceholderRecognised(name, tail + y);
  }

  /**
   * The segments a template text is read as, in the order `Render` meets
   * them: a recognised placeholder becomes a variable, and every other
   * character joins the literal that follows it.
   */
  function Segments(s: string): seq<Segment>
    decreases |s|
  {
    if s == [] then []
    else
      match PlaceholderAt(s)
      case Some(name) => [Var(name)] + Segments(s[|Placeholder(name)|..])
      case None =>
        var rest := Segments(s[1..]);
        if rest != [] && rest[0].Lit? then [Lit([s[0]] + rest[0].text)] + rest[1..] else [Lit([s[0]])] + rest
  }

  /** The text of one segment. */
  function SegmentText(seg: Segment): string {
    match seg
    case Lit(t) => t
    case Var(n) => Placeholder(n)
  }

  lemma ComposeCons(seg: Segment, rest: seq<Segment>)
    ensures Compose([seg] + rest) == SegmentText(seg) + Compose(rest)
  {
    assert ([seg] + rest)[1..] == rest;
  }

  /** A well-formed list stays well-formed behind a variable with a valid name. */
  lemma WellFormedAfterVar(name: string, rest: seq<Segment>)
    requires ValidName(name) && WellFormed(rest)
    ensures WellFormed([Var(name)] + rest)
  {
    var segs := [Var(name)] + rest;
    assert forall k :: 1 <= k < |segs| ==> segs[k] == rest[k - 1];
  }

  /** An inert literal can stand in front of a well-formed list that starts with a variable. */
  lemma WellFormedAfterLit(text: string, rest: seq<Segment>)
    requires Inert(text) && WellFormed(rest) && (rest == [] || rest[0].Var?)
    ensures WellFormed([Lit(text)] + rest)
  {
    var segs := [Lit(text)] + rest;
    assert forall k :: 1 <= k < |segs| ==> segs[k] == rest[k - 1];
  }

  /** A character that starts no placeholder, in front of inert text that the rest of `s` follows, keeps it inert. */
  lemma InertExtended(s: string, t: string, more: string)
    requires s != [] && PlaceholderAt(s).None? && Inert(t) && s == [s[0]] + t + more
    ensures Inert([s[0]] + t)
  {
    var x := [s[0]] + t;
    forall i | 0 <= i < |x|
      ensures PlaceholderAt(x[i..]).None?
    {
      if i == 0 {
        assert x[0..] == x;
        if PlaceholderAt(x).Some? {
          PlaceholderAtPrefix(x, more);
        }
      } else {
        assert x[i..] == t[i - 1..];
      }
    }
  }

  /** A variable in front of well-formed segments: still well-formed, spelling the placeholder and then their text. */
  lemma VarSpelt(name: string, rest: seq<Segment>, suffix: string)
    requires ValidName(name) && WellFormed(rest) && Compose(rest) == suffix
    ensures WellFormed([Var(name)] + rest) && Compose([Var(name)] + rest) == Placeholder(name) + suffix
  {
    WellFormedAfterVar(name, rest);
    ComposeCons(Var(name), rest);
  }

  /** The tail of a well-formed list is well-formed, and a leading literal is inert and followed by a variable. */
  lemma WellFormedTail(segments: seq<Segment>)
    requires WellFormed(segments) && segments != []
    ensures WellFormed(segments[1..])
    ensures segments[0].Lit? ==> Inert(segments[0].text) && (|segments| == 1 || segments[1..][0].Var?)
  {
    var tail := segments[1..];
    assert forall k :: 0 <= k < |tail| ==> tail[k] == segments[k + 1];
  }

  /**
   * A character that starts no placeholder, merged into the literal that
   * leads well-formed segments: still well-formed, spelling the character
   * and then their text.
   */
  lemma MergedSpelt(c: char, rest: seq<Segment>, suffix: string)
    requires WellFormed(rest) && Compose(rest) == suffix && rest != [] && rest[0].Lit?
    requires PlaceholderAt([c] + suffix).None?
    ensures WellFormed([Lit([c] + rest[0].text)] + rest[1..])
    ensures Compose([Lit([c] + rest[0].text)] + rest[1..]) == [c] + suffix
  {
    var t := rest[0].text;
    var tail := rest[1..];
    assert rest == [rest[0]] + tail;
    ComposeCons(rest[0], tail);
    WellFormedTail(rest);
    var s := [c] + suffix;
    assert s == [s[0]] + t + Compose(tail);
    InertExtended(s, t, Compose(tail));
    WellFormedAfterLit([c] + t, tail);
    ComposeCons(Lit([c] + t), tail);
  }

  /** A character as a literal of its own, in front of well-formed segments that are empty or start with a variable. */
  lemma SingleSpelt(c: char, rest: seq<Segment>, suffix: string)
    requires WellFormed(rest) && Compose(rest) == suffix && (rest == [] || rest[0].Var?)
    ensures WellFormed([Lit([c])] + rest) && Compose([Lit([c])] + rest) == [c] + suffix
  {
    assert Inert([c]) by {
      assert [c][0..] == [c];
    }
    WellFormedAfterLit([c], rest);
    ComposeCons(Lit([c]), rest);
  }

  /** The segments of `s` spell it and are well-formed. */
  predicate Spelt(s: string) {
    WellFormed(Segments(s)) && Compose(Segments(s)) == s
  }

  /** A text that starts with a placeholder is spelt if the text after the placeholder is. */
  lemma SpeltAfterVar(s: string, name: string)
    requires s != [] && PlaceholderAt(s) == Some(name) && Spelt(s[|Placeholder(name)|..])
    ensures Spelt(s)
  {
    var p := Placeholder(name);
    VarSpelt(name, Segments(s[|p|..]), s[|p|..]);
    assert s == p + s[|p|..];
  }

  /** A text whose first character joins the literal after it is spelt if the rest is. */
  lemma SpeltAfterMerge(s: string)
    requires s != [] && PlaceholderAt(s).None? && Spelt(s[1..])
    requires Segments(s[1..]) != [] && Segments(s[1..])[0].Lit?
    ensures Spelt(s)
  {
    assert s == [s[0]] + s[1..];
    MergedSpelt(s[0], Segments(s[1..]), s[1..]);
    assert Segments(s) == [Lit([s[0]] + Segments(s[1..])[0].text)] + Segments(s[1..])[1..];
  }

  /** A text whose first character is a literal of its own is spelt if the rest is. */
  lemma SpeltAfterChar(s: string)
    requires s != [] && PlaceholderAt(s).None? && Spelt(s[1..])
    requires Segments(s[1..]) == [] || Segments(s[1..])[0].Var?
    ensures Spelt(s)
  {
    assert s == [s[0]] + s[1..];
    SingleSpelt(s[0], Segments(s[1..]), s[1..]);
    assert Segments(s) == [Lit([s[0]])] + Segments(s[1..]);
  }

  /** Every template text is spelt by its segments, and they are well-formed. */
  lemma {:induction false} SegmentsSpell(s: string)
    ensures Spelt(s)
    decreases |s|
  {
    if s != [] {
      match PlaceholderAt(s)
      case Some(name) =>
        SegmentsSpell(s[|Placeholder(name)|..]);
        SpeltAfterVar(s, name);
      case None =>
        SegmentsSpell(s[1..]);
        if Segments(s[1..]) != [] && Segments(s[1..])[0].Lit? {
          SpeltAfterMerge(s);
        } else {
          SpeltAfterChar(s);
        }
    }
  }

  /** `Render` performs the expansion of every template text, not only of composed ones. */
  lemma RenderIsExpand(s: string, context: map<string, string>)
    ensures Render(s, context) == Expand(Segments(s), context)
  {
    SegmentsSpell(s);
    RenderMatchesExpand(Segments(s), context);
  }

  /**
   * Expansion fails exactly when some variable is missing from the context,
   * and then it reports the first missing one.
   */
  lemma {:induction false} ExpandFailsAtFirstMissing(segments: seq<Segment>, context: map<string, string>)
    ensures Expand(segments, context).MissingVariable? <==>
      exists k :: 0 <= k < |segments| && segments[k].Var? && segments[k].name !in context
    ensures Expand(segments, context).MissingVariable? ==>
      exists k :: 0 <= k < |segments| && segments[k] == Var(Expand(segments, context).name) &&
        Expand(segments, context).name !in context &&
        forall j :: 0 <= j < k && segments[j].Var? ==> segments[j].name in context
  {
    if segments != [] {
      var tail := segments[1..];
      ExpandFailsAtFirstMissing(tail, context);
      assert forall k :: 1 <= k < |segments| ==> segments[k] == tail[k - 1];
      var r := Expand(segments, context);
      if segments[0].Var? && segments[0].name !in context {
        assert segments[0] == Var(r.name);
      } else if r.MissingVariable? {
        var k :| 0 <= k < |tail| && tail[k] == Var(r.name) && r.name !in context &&
          forall j :: 0 <= j < k && tail[j].Var? ==> tail[j].name in context;
        assert segments[k + 1] == Var(r.name);
      }
    }
  }

  // ---------------------------------------------------------------------
  // The examples of the source's own documentation

  /** A placeholder followed by text without `<`: the value, then the text. */
  lemma PlaceholderBeforeText(name: string, text: string, context: map<string, string>)
    requires ValidName(name) && name in context
    requires forall k :: 0 <= k < |text| ==> text[k] != '<'
    ensures Render(Placeholder(name) + text, context) == Rendered(context[name] + text)
  {
    PlaceholderReplaced(name, text, context);
    InertWithoutOpening(text);
    LiteralCopied(text, "", context);
    assert text + "" == text;
    assert Render("", context) == Rendered("");
  }

  /** Two placeholders around a separator without `<`: both values, in order, around the separator. */
  lemma PlaceholdersAroundText(first: string, sep: string, second: string, context: map<string, string>)
    requires ValidName(first) && first in context && ValidName(second) && second in context
    requires forall k :: 0 <= k < |sep| ==> sep[k] != '<'
    ensures Render(Placeholder(first) + sep + Placeholder(second), context) ==
      Rendered(context[first] + sep + context[second])
  {
    PlaceholderBeforeText(second, "", context);
    assert Placeholder(second) + "" == Placeholder(second);
    assert context[second] + "" == context[second];
    InertWithoutOpening(sep);
    LiteralCopied(sep, Placeholder(second), context);
    PlaceholderReplaced(first, sep + Placeholder(second), context);
    assert Placeholder(first) + sep + Placeholder(second) == Placeholder(first) + (sep + Placeholder(second));
    assert context[first] + (sep + context[second]) == context[first] + sep + context[second];
  }

  /** A template that is a single placeholder renders to its variable's value. */
  lemma PlaceholderAlone(name: string, context: map<string, string>)
    requires ValidName(name) && name in context
    ensures Render(Placeholder(name), context) == Rendered(context[name])
  {
    PlaceholderBeforeText(name, "", context);
    assert Placeholder(name) + "" == Placeholder(name);
    assert context[name] + "" == context[name];
  }

  /** The names and texts of the examples below. */
  lemma ExampleParts()
    ensures ValidName("foobar") && ValidName("title")
    ensures forall k :: 0 <= k < |" hahaha"| ==> " hahaha"[k] != '<'
    ensures "bar" + " hahaha" == "bar hahaha" && "two" + " " + "bar" == "two bar"
  {
  }

  /** `"<%= foobar %>"` renders to `"bar"` when `foobar` is `"bar"`. */
  lemma SinglePlaceholder(name: string, context: map<string, string>)
    requires name == "foobar" && name in context && context[name] == "bar"
    ensures Render(Placeholder(name), context) == Rendered("bar")
  {
    ExampleParts();
    PlaceholderAlone(name, context);
  }

  /** `"<%= foobar %> hahaha"` renders to `"bar hahaha"`. */
  lemma PlaceholderThenText(name: string, text: string, context: map<string, string>)
    requires name == "foobar" && text == " hahaha" && name in context && context[name] == "bar"
    ensures Render(Placeholder(name) + text, context) == Rendered("bar hahaha")
  {
    ExampleParts();
    PlaceholderBeforeText(name, text, context);
  }

  /** `"<%= title %> <%= foobar %>"` renders to `"two bar"`. */
  lemma TwoPlaceholders(first: string, second: string, context: map<string, string>)
    requires first == "title" && second == "foobar"
    requires first in context && context[first] == "two" && second in context && context[second] == "bar"
    ensures Render(Placeholder(first) + " " + Placeholder(second), context) == Rendered("two bar")
  {
    ExampleParts();
    PlaceholdersAroundText(first, " ", second, context);
  }
}
