/**
 The pins of the registry whose value is a run of characters: for each, that its templates
 are ones the round trip is proved for, and that no value meets its literals.
 */
module PinRegistry {
  import opened Options
  import opened Pins
  import opened PinTokens
  import opened PinMatching
  import opened PinWrites

  // ------------------------------------------------------------ literals that hold no value

  /** No part of the literal could itself be a value of the pin. */
  ghost predicate HoldsNoValue(pin: Pin, t: string) {
    forall i, j :: 0 <= i <= j <= |t| ==> !pin.matches(t[i..j])
  }

  lemma TooShort(pin: Pin, t: string)
    requires ValidPattern(pin) && pin.length.Some? && |t| < pin.length.value
    ensures HoldsNoValue(pin, t)
  {
  }

  /** Every value has a character of this kind. */
  ghost predicate Needs(pin: Pin, needed: char -> bool) {
    forall v :: pin.matches(v) ==> exists k :: 0 <= k < |v| && needed(v[k])
  }

  predicate Without(t: string, needed: char -> bool) {
    forall k :: 0 <= k < |t| ==> !needed(t[k])
  }

  lemma LacksNeeded(pin: Pin, t: string, needed: char -> bool)
    requires Needs(pin, needed) && Without(t, needed)
    ensures HoldsNoValue(pin, t)
  {
    forall i, j | 0 <= i <= j <= |t|
      ensures !pin.matches(t[i..j])
    {
      assert forall k :: 0 <= k < j - i ==> t[i..j][k] == t[i + k];
    }
  }

  lemma SliceOfSlice(t: string, i: nat, j: nat, a: nat, b: nat)
    requires i <= j <= |t| && a <= b <= j - i
    ensures t[i..j][a..b] == t[i + a..i + b]
  {
    assert forall k :: 0 <= k < b - a ==> t[i..j][a..b][k] == t[i..j][a + k] == t[i + a + k];
  }

  /** A token of a literal is a part of it. */
  lemma {:induction false} TokenIsPart(pin: Pin, s: string, k: nat)
    requires k < |Tokens(pin, s)|
    ensures exists i: nat, j: nat :: i <= j <= |s| && s[i..j] == Tokens(pin, s)[k]
    decreases |s|
  {
    var n := RunLength(pin, s);
    var m := if n == 0 then 1 else n;
    if k == 0 {
      assert s[0..m] == Tokens(pin, s)[0];
    } else {
      TokenIsPart(pin, s[m..], k - 1);
      var i: nat, j: nat :| i <= j <= |s[m..]| && s[m..][i..j] == Tokens(pin, s[m..])[k - 1];
      SliceOfRest(s, m, i, j);
    }
  }

  lemma NoneShown(pin: Pin, t: string, f: Frame, u: string)
    requires HoldsNoValue(pin, t)
    ensures NoneShows(pin, f, u, Tokens(pin, t))
    ensures NoneShows(pin, f, u, BeforeOf(pin, t)) && NoneShows(pin, f, u, AfterOf(pin, t))
  {
    hide Tokens;
    var l := Tokens(pin, t);
    forall k | 0 <= k < |l|
      ensures !Shows(pin, f, u, l[k])
    {
      TokenIsPart(pin, t, k);
      var i: nat, j: nat :| i <= j <= |t| && t[i..j] == l[k];
      if Cut(pin, f, l[k]).Some? {
        var c := Cut(pin, f, l[k]).value;
        SliceOfSlice(t, i, j, c.from, c.to);
      }
    }
  }

  ghost predicate LiteralsHoldNone(pin: Pin, template: Template) {
    HoldsNoValue(pin, template.text) && (template.Piece? ==> LiteralsHoldNone(pin, template.rest))
  }

  lemma {:induction false} RestAvoidsAll(pin: Pin, template: Template, f: Frame, u: string)
    requires template.Piece? ==> LiteralsHoldNone(pin, template.rest)
    ensures RestAvoids(pin, template, f, u)
    decreases template
  {
    hide HoldsNoValue, NoneShows, Tokens;
    match template
    case End(_) =>
    case Piece(t, gap, rest) =>
      NoneShown(pin, rest.text, f, u);
      RestAvoidsAll(pin, rest, f, u);
  }

  /** No other site of the pin is in the file of site j. */
  predicate Alone(pin: Pin, j: nat)
    requires j < |pin.sites|
  {
    forall i :: 0 <= i < |pin.sites| && i != j ==> pin.sites[i].path != pin.sites[j].path
  }

  /** The literals meet no value: those after the first for the site itself, and the first too
      where another site shares the file. */
  ghost predicate Inert(pin: Pin, j: nat)
    requires j < |pin.sites|
  {
    var t := pin.sites[j].template;
    && t.Piece? && LiteralsHoldNone(pin, t.rest)
    && (Alone(pin, j) || (HoldsNoValue(pin, t.text) && Opening(pin, t) == ""))
  }

  lemma ClearOfAll(pin: Pin, u: string)
    requires forall j :: 0 <= j < |pin.sites| ==> Inert(pin, j)
    ensures Clear(pin, u)
  {
    hide HoldsNoValue, NoneShows, Tokens, RestAvoids, LiteralsHoldNone;
    forall i, j | 0 <= i < |pin.sites| && 0 <= j < |pin.sites| && pin.sites[i].path == pin.sites[j].path
      ensures RestAvoids(pin, pin.sites[j].template, FrameOf(pin, pin.sites[i].template), u)
      ensures i != j ==> FirstAvoids(pin, pin.sites[j].template, FrameOf(pin, pin.sites[i].template), u)
    {
      assert Inert(pin, j);
      RestAvoidsAll(pin, pin.sites[j].template, FrameOf(pin, pin.sites[i].template), u);
      if i != j {
        NoneShown(pin, pin.sites[j].template.text, FrameOf(pin, pin.sites[i].template), u);
      }
    }
  }

  // ------------------------------------------------------------ the shapes of the registry's templates

  predicate Outside(pin: Pin, c: char) {
    !pin.inClass(c)
  }

  lemma NoHead(pin: Pin, t: string)
    requires t != "" && Outside(pin, t[|t| - 1])
    ensures HeadOf(pin, t) == "" && BeforeOf(pin, t) != []
  {
    LastToken(pin, t);
  }

  lemma NoTailThere(pin: Pin, t: string)
    requires t == "" || Outside(pin, t[0])
    ensures TailOf(pin, t) == ""
  {
    if t != "" {
      TokensCanonical(pin, t);
    }
  }

  function Around(before: string, after: string): Template {
    Piece(before, Value, End(after))
  }

  function AroundGap(first: string, gap: Gap, before: string, after: string): Template {
    Piece(first, gap, Piece(before, Value, End(after)))
  }

  /** The template is valid, its value fills its run but for `tail` or nothing after it. */
  predicate Shape(pin: Pin, template: Template, tail: string) {
    && ValidTemplate(pin, template)
    && FrameOf(pin, template).head == ""
    && (FrameOf(pin, template).tail == "" || (FrameOf(pin, template).tail == tail && !FrameOf(pin, template).open))
    && (FrameOf(pin, template).open ==> Opening(pin, template) == "")
  }

  /** No value is another with this behind it. */
  ghost predicate Untailed(pin: Pin, tail: string) {
    pin.length.None? && forall u, v :: pin.matches(u) && pin.matches(v) ==> u != v + tail
  }

  lemma ShapesAreValid(pin: Pin, tail: string)
    requires ValidPattern(pin) && forall j :: 0 <= j < |pin.sites| ==> Shape(pin, pin.sites[j].template, tail)
    requires tail != "" ==> Untailed(pin, tail)
    ensures ValidPin(pin)
  {
    hide ValidPattern, ValidTemplate, FrameOf, Opening;
    forall i, j | 0 <= i < |pin.sites| && 0 <= j < |pin.sites|
      ensures Compatible(pin, FrameOf(pin, pin.sites[i].template), FrameOf(pin, pin.sites[j].template))
    {
      var f, g := FrameOf(pin, pin.sites[i].template), FrameOf(pin, pin.sites[j].template);
      assert Shape(pin, pin.sites[i].template, tail) && Shape(pin, pin.sites[j].template, tail);
      if tail != "" {
        ClosedPin(pin, pin.sites[i].template);
        ClosedPin(pin, pin.sites[j].template);
        assert forall u: string :: "" + u + "" == u && "" + u + tail == u + tail;
      }
    }
  }

  /** Where values have no one length every value has a literal after it. */
  lemma {:induction false} ClosedPin(pin: Pin, template: Template)
    requires ValidTemplate(pin, template) && pin.length.None?
    ensures !FrameOf(pin, template).open
    decreases template
  {
    hide HeadOf, TailOf, BeforeOf;
    if !template.gap.Value? {
      ClosedPin(pin, template.rest);
    }
  }

  /** Literals that hold no value, in a template that begins outside the class. */
  ghost predicate Quiet(pin: Pin, template: Template, tail: string) {
    Shape(pin, template, tail) && LiteralsHoldNone(pin, template) && Opening(pin, template) == ""
  }

  /** A pin the round trip holds for, whatever values it is given. */
  ghost predicate Covered(pin: Pin) {
    ValidPin(pin) && forall u :: Clear(pin, u)
  }

  lemma QuietIsCovered(pin: Pin, tail: string)
    requires ValidPattern(pin) && forall j :: 0 <= j < |pin.sites| ==> Quiet(pin, pin.sites[j].template, tail)
    requires tail != "" ==> Untailed(pin, tail)
    ensures Covered(pin)
  {
    hide ValidPattern, ValidPin, Shape, HoldsNoValue, Clear, Opening, Untailed;
    ShapesAreValid(pin, tail);
    forall j | 0 <= j < |pin.sites|
      ensures Inert(pin, j)
    {
      assert Quiet(pin, pin.sites[j].template, tail);
      ShapeIsPiece(pin, pin.sites[j].template, tail);
    }
    forall u
      ensures Clear(pin, u)
    {
      ClearOfAll(pin, u);
    }
  }

  /** With one site to a file only the literals after the first matter. */
  lemma AloneIsCovered(pin: Pin, tail: string)
    requires ValidPattern(pin) && tail == ""
    requires forall j :: 0 <= j < |pin.sites| ==>
      Shape(pin, pin.sites[j].template, tail) && LiteralsHoldNone(pin, pin.sites[j].template.rest) && Alone(pin, j)
    ensures Covered(pin)
  {
    hide ValidPattern, ValidPin, Shape, HoldsNoValue, Clear, Opening, Alone;
    ShapesAreValid(pin, tail);
    forall j | 0 <= j < |pin.sites|
      ensures Inert(pin, j)
    {
      ShapeIsPiece(pin, pin.sites[j].template, tail);
    }
    forall u
      ensures Clear(pin, u)
    {
      ClearOfAll(pin, u);
    }
  }

  /** One site, whose first literal may reach into the value's run. */
  lemma OneSiteIsCovered(pin: Pin, before: string, after: string, k: nat)
    requires ValidPattern(pin) && |pin.sites| == 1 && pin.sites[0].template == Around(before, after)
    requires k < |before| && Outside(pin, before[k])
    requires after != "" && Outside(pin, after[|after| - 1]) && HoldsNoValue(pin, after)
    ensures Covered(pin)
  {
    hide ValidPattern, HoldsNoValue, Clear, Opening, HeadOf, BeforeOf, Flatten;
    BeforeParts(pin, before);
    EmptyFlat();
    assert Flatten(BeforeOf(pin, before)) + HeadOf(pin, before) == before;
    forall u
      ensures Clear(pin, u)
    {
      assert LiteralsHoldNone(pin, End(after));
      ClearOfAll(pin, u);
    }
  }

  lemma ShapeIsPiece(pin: Pin, template: Template, tail: string)
    requires Shape(pin, template, tail)
    ensures template.Piece?
  {
  }

  /** The literals around the value do not reach into its run. */
  predicate Flush(pin: Pin, before: string, after: string) {
    && before != "" && Outside(pin, before[|before| - 1])
    && (if after == "" then pin.length.Some?
        else Outside(pin, after[0]) && Outside(pin, after[|after| - 1]))
  }

  lemma FlushShape(pin: Pin, before: string, after: string, tail: string)
    requires Flush(pin, before, after) && (Outside(pin, before[0]) || after != "")
    ensures Shape(pin, Around(before, after), tail)
    ensures Outside(pin, before[0]) ==> Opening(pin, Around(before, after)) == ""
  {
    hide HeadOf, TailOf, BeforeOf, Tokens;
    NoHead(pin, before);
    NoTailThere(pin, after);
    if Outside(pin, before[0]) {
      NoTailThere(pin, before);
    }
  }

  lemma GapShaped(pin: Pin, first: string, gap: Gap, before: string, after: string, tail: string)
    requires Flush(pin, before, after) && first != "" && Outside(pin, first[0])
    requires if gap.Any? then Outside(pin, first[|first| - 1]) && Quoting(before[0]) else gap.Space? && !Blank(before[0])
    ensures Shape(pin, AroundGap(first, gap, before, after), tail)
    ensures Opening(pin, AroundGap(first, gap, before, after)) == ""
  {
    hide HeadOf, TailOf, BeforeOf, Tokens;
    NoHead(pin, before);
    NoTailThere(pin, after);
    NoTailThere(pin, first);
    var inner := Around(before, after);
    assert ValidTemplate(pin, inner);
    assert FrameOf(pin, AroundGap(first, gap, before, after)) == FrameOf(pin, inner);
  }

  lemma AroundHoldsNone(pin: Pin, before: string, after: string)
    requires HoldsNoValue(pin, before) && HoldsNoValue(pin, after)
    ensures LiteralsHoldNone(pin, Around(before, after))
  {
    hide HoldsNoValue;
    assert LiteralsHoldNone(pin, End(after));
  }

  lemma GapHoldsNone(pin: Pin, first: string, gap: Gap, before: string, after: string)
    requires HoldsNoValue(pin, first) && HoldsNoValue(pin, before) && HoldsNoValue(pin, after)
    ensures LiteralsHoldNone(pin, AroundGap(first, gap, before, after))
  {
    hide HoldsNoValue;
    AroundHoldsNone(pin, before, after);
  }

  lemma QuietByLack(pin: Pin, before: string, after: string, tail: string, needed: char -> bool)
    requires Needs(pin, needed) && Without(before, needed) && Without(after, needed)
    requires Flush(pin, before, after) && Outside(pin, before[0])
    ensures Quiet(pin, Around(before, after), tail)
  {
    hide HoldsNoValue, Opening, Shape, Needs, Without, Flush;
    FlushShape(pin, before, after, tail);
    LacksNeeded(pin, before, needed);
    LacksNeeded(pin, after, needed);
    AroundHoldsNone(pin, before, after);
  }

  lemma GapQuietByLack(pin: Pin, first: string, gap: Gap, before: string, after: string, needed: char -> bool)
    requires Needs(pin, needed) && Without(first, needed) && Without(before, needed) && Without(after, needed)
    requires Flush(pin, before, after) && first != "" && Outside(pin, first[0])
    requires if gap.Any? then Outside(pin, first[|first| - 1]) && Quoting(before[0]) else gap.Space? && !Blank(before[0])
    ensures Quiet(pin, AroundGap(first, gap, before, after), "")
  {
    hide HoldsNoValue, Opening, Shape, Needs, Without, Flush;
    GapShaped(pin, first, gap, before, after, "");
    LacksNeeded(pin, first, needed);
    LacksNeeded(pin, before, needed);
    LacksNeeded(pin, after, needed);
    GapHoldsNone(pin, first, gap, before, after);
  }

  /** The literal after the value begins with one character of the class. */
  lemma QuietWithTail(pin: Pin, before: string, after: string, needed: char -> bool)
    requires Needs(pin, needed) && Without(before, needed) && Without(after, needed)
    requires before != "" && Outside(pin, before[0]) && Outside(pin, before[|before| - 1])
    requires |after| > 1 && !Outside(pin, after[0]) && Outside(pin, after[1]) && Outside(pin, after[|after| - 1])
    ensures Quiet(pin, Around(before, after), after[..1])
  {
    hide HoldsNoValue, Needs, Without, HeadOf, TailOf, BeforeOf, Tokens;
    NoHead(pin, before);
    NoTailThere(pin, before);
    OneTail(pin, after);
    LacksNeeded(pin, before, needed);
    LacksNeeded(pin, after, needed);
    AroundHoldsNone(pin, before, after);
  }

  lemma OneTail(pin: Pin, t: string)
    requires |t| > 1 && pin.inClass(t[0]) && Outside(pin, t[1])
    ensures TailOf(pin, t) == t[..1]
  {
    RunLengthIs(pin, t, 1);
  }

  lemma QuietByLength(pin: Pin, before: string, after: string)
    requires ValidPattern(pin) && pin.length.Some? && |before| < pin.length.value && |after| < pin.length.value
    requires Flush(pin, before, after) && Outside(pin, before[0])
    ensures Quiet(pin, Around(before, after), "")
  {
    hide HoldsNoValue, Opening, Shape, ValidPattern, Flush;
    FlushShape(pin, before, after, "");
    TooShort(pin, before);
    TooShort(pin, after);
    AroundHoldsNone(pin, before, after);
  }

  lemma BriefHoldsNone(pin: Pin, before: string, after: string)
    requires ValidPattern(pin) && pin.length.Some? && |before| < pin.length.value && |after| < pin.length.value
    ensures LiteralsHoldNone(pin, Around(before, after))
  {
    hide HoldsNoValue, ValidPattern;
    TooShort(pin, before);
    TooShort(pin, after);
    AroundHoldsNone(pin, before, after);
  }

  /** A value between two literals too short to hold one, beginning outside the class. */
  predicate Brief(pin: Pin, template: Template) {
    && template.Piece? && template.gap.Value? && template.rest.End? && pin.length.Some?
    && |template.text| < pin.length.value && |template.rest.text| < pin.length.value
    && Flush(pin, template.text, template.rest.text) && Outside(pin, template.text[0])
  }

  lemma BriefIsCovered(pin: Pin)
    requires ValidPattern(pin) && forall j :: 0 <= j < |pin.sites| ==> Brief(pin, pin.sites[j].template)
    ensures Covered(pin)
  {
    hide ValidPattern, Quiet, Flush, Covered;
    forall j | 0 <= j < |pin.sites|
      ensures Quiet(pin, pin.sites[j].template, "")
    {
      var t := pin.sites[j].template;
      assert Brief(pin, t);
      assert t == Around(t.text, t.rest.text);
      QuietByLength(pin, t.text, t.rest.text);
    }
    QuietIsCovered(pin, "");
  }

  // ------------------------------------------------------------ the patterns

  predicate Digit(c: char) {
    '0' <= c <= '9'
  }

  predicate LowerHex(c: char) {
    Digit(c) || 'a' <= c <= 'f'
  }

  predicate Digits(s: string) {
    s != "" && forall i :: 0 <= i < |s| ==> Digit(s[i])
  }

  predicate AllOf(s: string, p: char -> bool) {
    forall k :: 0 <= k < |s| ==> p(s[k])
  }

  predicate VersionChar(c: char) {
    Digit(c) || c == '.'
  }

  predicate TaggedChar(c: char) {
    c == 'v' || VersionChar(c)
  }

  predicate VersionAt(s: string, i: nat, j: nat)
    requires i < j < |s|
  {
    s[i] == '.' && s[j] == '.' && Digits(s[..i]) && Digits(s[i + 1..j]) && Digits(s[j + 1..])
  }

  /** `\d+\.\d+\.\d+`. */
  ghost predicate IsVersion(s: string) {
    exists i: nat, j: nat :: i < j < |s| && VersionAt(s, i, j)
  }

  ghost function VersionPin(sites: seq<Site>): Pin {
    Pin(VersionChar, IsVersion, None, sites)
  }

  /** A version is made of its class and begins and ends with a digit. */
  lemma VersionShape(s: string)
    requires IsVersion(s)
    ensures s != "" && AllOf(s, VersionChar) && Digit(s[0]) && Digit(s[|s| - 1])
  {
    var i: nat, j: nat :| i < j < |s| && VersionAt(s, i, j);
    assert s[..i][0] == s[0] && s[j + 1..][|s| - j - 2] == s[|s| - 1];
    forall k | 0 <= k < |s|
      ensures VersionChar(s[k])
    {
      if k < i {
        assert s[..i][k] == s[k];
      } else if i < k < j {
        assert s[i + 1..j][k - i - 1] == s[k];
      } else if j < k {
        assert s[j + 1..][k - j - 1] == s[k];
      }
    }
  }

  predicate NoDigits(t: string) {
    forall k :: 0 <= k < |t| ==> !('0' <= t[k] <= '9')
  }

  /** Neither the first nor the last character is one of a version. */
  predicate Bare(t: string) {
    t != "" && Bland(t[0]) && Bland(t[|t| - 1])
  }

  predicate Bland(c: char) {
    c != '.' && !('0' <= c <= '9')
  }

  /** What a pin of versions has for the checks on its literals. */
  ghost predicate Versions(pin: Pin) {
    Needs(pin, Digit) && forall c :: pin.inClass(c) <==> VersionChar(c)
  }

  lemma QuietVersion(pin: Pin, before: string, after: string, tail: string)
    requires Versions(pin) && NoDigits(before) && NoDigits(after) && Bare(before) && Bare(after)
    ensures Quiet(pin, Around(before, after), tail)
  {
    hide Quiet, Needs;
    QuietByLack(pin, before, after, tail, Digit);
  }

  lemma VersionPattern(pin: Pin)
    requires pin.inClass == VersionChar && pin.matches == IsVersion && pin.length == None
    ensures ValidPattern(pin) && Versions(pin) && Untailed(pin, ".")
  {
    forall v | pin.matches(v)
      ensures v != "" && AllIn(pin, v) && Digit(v[0]) && Digit(v[|v| - 1])
    {
      VersionShape(v);
    }
  }

  /** `[tqd][0-9a-z]{9}_[0-9a-f]{12}_[0-9a-f]{12}`. */
  predicate IsJa4(s: string) {
    && |s| == 36 && (s[0] == 't' || s[0] == 'q' || s[0] == 'd') && s[10] == '_' == s[23]
    && (forall k :: 1 <= k < 10 ==> Digit(s[k]) || 'a' <= s[k] <= 'z')
    && (forall k :: 11 <= k < 36 && k != 23 ==> LowerHex(s[k]))
  }

  predicate Ja4Char(c: char) {
    Digit(c) || 'a' <= c <= 'z' || c == '_'
  }

  ghost function Ja4Pin(sites: seq<Site>): Pin {
    Pin(Ja4Char, IsJa4, Some(36), sites)
  }

  lemma Ja4Pattern(pin: Pin)
    requires pin.inClass == Ja4Char && pin.matches == IsJa4 && pin.length == Some(36)
    ensures ValidPattern(pin)
  {
    forall v | IsJa4(v)
      ensures AllIn(pin, v)
    {
      forall k | 0 <= k < |v|
        ensures Ja4Char(v[k])
      {
        assert k == 0 || 1 <= k < 10 || k == 10 || k == 23 || LowerHex(v[k]);
      }
    }
  }

  /** `[0-9a-f]{32}`. */
  predicate IsJa3(s: string) {
    |s| == 32 && AllOf(s, LowerHex)
  }

  ghost function Ja3Pin(sites: seq<Site>): Pin {
    Pin(LowerHex, IsJa3, Some(32), sites)
  }

  lemma Ja3Pattern(pin: Pin)
    requires pin.inClass == LowerHex && pin.matches == IsJa3 && pin.length == Some(32)
    ensures ValidPattern(pin)
  {
  }

  /** `\d+`, and `[a-z_]+`: a run of one kind of character. */
  ghost function RunPin(inClass: char -> bool, sites: seq<Site>): Pin {
    Pin(inClass, s => s != "" && AllOf(s, inClass), None, sites)
  }

  lemma RunPattern(pin: Pin, inClass: char -> bool)
    requires pin.inClass == inClass && pin.length == None && forall v :: pin.matches(v) <==> v != "" && AllOf(v, inClass)
    requires forall c :: Blank(c) || Quoting(c) ==> !inClass(c)
    ensures ValidPattern(pin) && Needs(pin, inClass)
  {
    forall v | pin.matches(v)
      ensures inClass(v[0])
    {
    }
  }

  predicate LowerOrUnderscore(c: char) {
    'a' <= c <= 'z' || c == '_'
  }

  /** `v\d+\.\d+\.\d+`. */
  ghost predicate IsTagged(s: string) {
    s != "" && s[0] == 'v' && IsVersion(s[1..])
  }

  ghost function TaggedPin(sites: seq<Site>): Pin {
    Pin(TaggedChar, IsTagged, None, sites)
  }

  ghost predicate Tagged(pin: Pin) {
    Needs(pin, Digit) && forall c :: pin.inClass(c) <==> TaggedChar(c)
  }

  lemma TaggedPattern(pin: Pin)
    requires pin.inClass == TaggedChar && pin.matches == IsTagged && pin.length == None
    ensures ValidPattern(pin) && Tagged(pin)
  {
    forall s | IsTagged(s)
      ensures AllIn(pin, s) && |s| > 1 && Digit(s[1])
    {
      VersionShape(s[1..]);
      assert forall k :: 1 <= k < |s| ==> s[k] == s[1..][k - 1];
    }
  }

  /** `advisor-tool-\d{4}-\d{2}-\d{2}`. */
  predicate IsAdvisor(s: string) {
    && |s| == 23 && "advisor-tool-" <= s && s[17] == '-' == s[20]
    && (forall k :: 13 <= k < 23 && k != 17 && k != 20 ==> Digit(s[k]))
  }

  predicate AdvisorChar(c: char) {
    Digit(c) || 'a' <= c <= 'z' || c == '-'
  }

  ghost function AdvisorPin(sites: seq<Site>): Pin {
    Pin(AdvisorChar, IsAdvisor, Some(23), sites)
  }

  lemma AdvisorPattern(pin: Pin)
    requires pin.inClass == AdvisorChar && pin.matches == IsAdvisor && pin.length == Some(23)
    ensures ValidPattern(pin)
  {
    var prefix := "advisor-tool-";
    assert forall k :: 0 <= k < |prefix| ==> AdvisorChar(prefix[k]);
    forall s | IsAdvisor(s)
      ensures AllIn(pin, s)
    {
      forall k | 0 <= k < |s|
        ensures AdvisorChar(s[k])
      {
        assert k < 13 ==> s[k] == prefix[k];
      }
    }
  }

  /** `\.reference/[A-Za-z0-9_./-]+\.jsonl`. */
  predicate IsBaseline(s: string) {
    && |s| > 17 && ".reference/" <= s && EndsWith(s, ".jsonl")
    && AllOf(s[11..|s| - 6], BaselineChar)
  }

  predicate BaselineChar(c: char) {
    Digit(c) || 'a' <= c <= 'z' || 'A' <= c <= 'Z' || c == '_' || c == '.' || c == '/' || c == '-'
  }

  ghost function BaselinePin(sites: seq<Site>): Pin {
    Pin(BaselineChar, IsBaseline, None, sites)
  }

  lemma BaselinePattern(pin: Pin)
    requires pin.inClass == BaselineChar && pin.matches == IsBaseline && pin.length == None
    ensures ValidPattern(pin) && Needs(pin, c => c == 'j')
  {
    var front, back := ".reference/", ".jsonl";
    assert forall k :: 0 <= k < |front| ==> BaselineChar(front[k]);
    assert forall k :: 0 <= k < |back| ==> BaselineChar(back[k]);
    forall s | IsBaseline(s)
      ensures AllIn(pin, s) && s[|s| - 5] == 'j'
    {
      var n := |s| - 6;
      assert s[n + 1] == s[n..][1];
      forall k | 0 <= k < |s|
        ensures BaselineChar(s[k])
      {
        if k < 11 {
          assert s[k] == front[k];
        } else if k < n {
          assert s[k] == s[11..n][k - 11];
        } else {
          assert s[k] == s[n..][k - n];
        }
      }
    }
  }
}
