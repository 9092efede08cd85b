/**
 A text as maximal runs of a value's characters and single other characters, and the
 templates of a pin matched on this form: literals cover whole tokens, except that the
 literals around the value may reach into its run, and a value is a run but for what they
 cover of it.
 */
module PinTokens {
  import opened Options
  import opened Pins

  predicate AllIn(pin: Pin, s: string) {
    forall i :: 0 <= i < |s| ==> pin.inClass(s[i])
  }

  /** The length of the run of the class at the front. */
  function RunLength(pin: Pin, s: string): (n: nat)
    ensures n <= |s| && AllIn(pin, s[..n]) && (n < |s| ==> !pin.inClass(s[n]))
  {
    if s != "" && pin.inClass(s[0]) then
      var n := 1 + RunLength(pin, s[1..]);
      assert forall i :: 1 <= i < n ==> s[i] == s[1..][i - 1];
      n
    else 0
  }

  predicate IsRun(pin: Pin, t: string) {
    t != "" && AllIn(pin, t)
  }

  predicate IsSep(pin: Pin, t: string) {
    |t| == 1 && !pin.inClass(t[0])
  }

  /** Runs and separators, with no two runs side by side. */
  predicate Canonical(pin: Pin, tokens: seq<string>) {
    tokens == [] ||
    (&& (IsSep(pin, tokens[0]) || (IsRun(pin, tokens[0]) && (|tokens| == 1 || IsSep(pin, tokens[1]))))
     && Canonical(pin, tokens[1..]))
  }

  function Flatten(tokens: seq<string>): string {
    if tokens == [] then "" else tokens[0] + Flatten(tokens[1..])
  }

  function Tokens(pin: Pin, s: string): seq<string>
    decreases |s|
  {
    if s == "" then []
    else
      var n := RunLength(pin, s);
      if n == 0 then [s[..1]] + Tokens(pin, s[1..]) else [s[..n]] + Tokens(pin, s[n..])
  }

  lemma {:induction false} TokensFlatten(pin: Pin, s: string)
    ensures Flatten(Tokens(pin, s)) == s
    decreases |s|
  {
    if s != "" {
      var n := RunLength(pin, s);
      var k := if n == 0 then 1 else n;
      hide RunLength;
      TokensFlatten(pin, s[k..]);
      assert Tokens(pin, s)[0] == s[..k] && Tokens(pin, s)[1..] == Tokens(pin, s[k..]);
      assert s == s[..k] + s[k..];
    }
  }

  lemma {:induction false} TokensCanonical(pin: Pin, s: string)
    ensures Canonical(pin, Tokens(pin, s))
    ensures s != "" && !pin.inClass(s[0]) ==> Tokens(pin, s) != [] && IsSep(pin, Tokens(pin, s)[0])
    decreases |s|
  {
    if s != "" {
      var n := RunLength(pin, s);
      if n == 0 {
        TokensCanonical(pin, s[1..]);
      } else {
        TokensCanonical(pin, s[n..]);
        assert s[..n][0] == s[0];
        assert n < |s| ==> s[n..][0] == s[n];
        assert n == |s| ==> Tokens(pin, s[n..]) == [];
      }
    }
  }

  lemma {:induction false} RunLengthIs(pin: Pin, s: string, n: nat)
    requires n <= |s| && AllIn(pin, s[..n]) && (n < |s| ==> !pin.inClass(s[n]))
    ensures RunLength(pin, s) == n
  {
    var m := RunLength(pin, s);
    assert forall i :: 0 <= i < n ==> pin.inClass(s[i]) by {
      assert forall i :: 0 <= i < n ==> s[..n][i] == s[i];
    }
    assert forall i :: 0 <= i < m ==> pin.inClass(s[i]) by {
      assert forall i :: 0 <= i < m ==> s[..m][i] == s[i];
    }
  }

  lemma FlattenHead(pin: Pin, tokens: seq<string>)
    requires Canonical(pin, tokens) && tokens != []
    ensures Flatten(tokens) != "" && Flatten(tokens)[0] == tokens[0][0]
    ensures Flatten(tokens)[..|tokens[0]|] == tokens[0] && Flatten(tokens)[|tokens[0]|..] == Flatten(tokens[1..])
  {
  }

  lemma RunLengthOfTokens(pin: Pin, tokens: seq<string>)
    requires Canonical(pin, tokens)
    ensures RunLength(pin, Flatten(tokens)) == if tokens != [] && IsRun(pin, tokens[0]) then |tokens[0]| else 0
  {
    if tokens != [] {
      FlattenHead(pin, tokens);
      var s, n := Flatten(tokens), |tokens[0]|;
      if IsRun(pin, tokens[0]) {
        if |tokens| > 1 {
          FlattenHead(pin, tokens[1..]);
          assert s[n] == s[n..][0];
        }
        RunLengthIs(pin, s, n);
      }
    }
  }

  lemma {:induction false} TokensOfFlatten(pin: Pin, tokens: seq<string>)
    requires Canonical(pin, tokens)
    ensures Tokens(pin, Flatten(tokens)) == tokens
  {
    if tokens != [] {
      RunLengthOfTokens(pin, tokens);
      FlattenHead(pin, tokens);
      TokensOfFlatten(pin, tokens[1..]);
      assert tokens == [tokens[0]] + tokens[1..];
    }
  }

  lemma {:induction false} FlattenConcat(a: seq<string>, b: seq<string>)
    ensures Flatten(a + b) == Flatten(a) + Flatten(b)
  {
    if a == [] {
      assert a + b == b;
    } else {
      assert (a + b)[1..] == a[1..] + b;
      FlattenConcat(a[1..], b);
    }
  }

  lemma {:induction false} CanonicalRest(pin: Pin, tokens: seq<string>, n: nat)
    requires Canonical(pin, tokens) && n <= |tokens|
    ensures Canonical(pin, tokens[n..])
  {
    if n > 0 {
      CanonicalRest(pin, tokens[1..], n - 1);
      assert tokens[1..][n - 1..] == tokens[n..];
    } else {
      assert tokens[0..] == tokens;
    }
  }

  lemma SplitTokens(tokens: seq<string>, b: nat)
    requires b <= |tokens|
    ensures Flatten(tokens) == Flatten(tokens[..b]) + Flatten(tokens[b..])
  {
    assert tokens == tokens[..b] + tokens[b..];
    FlattenConcat(tokens[..b], tokens[b..]);
  }

  // ------------------------------------------------------------ literals as tokens

  /** Tokens of a literal that ends in a separator. */
  ghost predicate Closed(pin: Pin, l: seq<string>) {
    Canonical(pin, l) && (l != [] ==> IsSep(pin, l[|l| - 1]))
  }

  lemma ClosedRest(pin: Pin, l: seq<string>)
    requires Closed(pin, l) && l != []
    ensures Closed(pin, l[1..])
    ensures IsRun(pin, l[0]) ==> |l| > 1 && IsSep(pin, l[1])
  {
  }

  /** A literal ends where its last token does: text begins with it exactly when the tokens do. */
  lemma {:induction false} PrefixTokens(pin: Pin, l: seq<string>, tokens: seq<string>)
    requires Closed(pin, l) && Canonical(pin, tokens)
    ensures Flatten(l) <= Flatten(tokens) <==> l <= tokens
  {
    if l == [] {
    } else if tokens == [] {
      FlattenHead(pin, l);
    } else {
      hide Flatten, Canonical;
      ClosedRest(pin, l);
      FlattenHead(pin, l);
      FlattenHead(pin, tokens);
      CanonicalRest(pin, tokens, 1);
      PrefixTokens(pin, l[1..], tokens[1..]);
      if Flatten(l) <= Flatten(tokens) {
        SameFirstToken(pin, l, tokens);
      }
      FirstAndRest(l, tokens);
    }
  }

  /** With the same first token, one text begins with another when the rest does. */
  lemma FirstAndRest(l: seq<string>, tokens: seq<string>)
    requires l != [] && tokens != []
    ensures l[0] == tokens[0] ==> (Flatten(l) <= Flatten(tokens) <==> Flatten(l[1..]) <= Flatten(tokens[1..]))
    ensures l <= tokens <==> l[0] == tokens[0] && l[1..] <= tokens[1..]
  {
    DropBoth(l[0], Flatten(l[1..]), Flatten(tokens[1..]));
    if l[0] == tokens[0] && l[1..] <= tokens[1..] {
      assert l == [l[0]] + l[1..] && tokens == [tokens[0]] + tokens[1..];
    }
    if l <= tokens {
      assert tokens[1..][..|l| - 1] == l[1..];
    }
  }

  lemma DropBoth(a: string, b: string, c: string)
    ensures a + b <= a + c <==> b <= c
  {
    assert (a + b)[|a|..] == b && (a + c)[|a|..] == c;
    if a + b <= a + c {
      assert b == (a + c)[..|a + b|][|a|..] == c[..|b|];
    }
  }

  lemma SameFirstToken(pin: Pin, l: seq<string>, tokens: seq<string>)
    requires Closed(pin, l) && Canonical(pin, tokens) && l != [] && tokens != []
    requires Flatten(l) <= Flatten(tokens)
    ensures l[0] == tokens[0]
  {
    var s, t := Flatten(l), Flatten(tokens);
    FlattenHead(pin, l);
    FlattenHead(pin, tokens);
    RunLengthOfTokens(pin, tokens);
    if IsRun(pin, l[0]) {
      var n := |l[0]|;
      ClosedRest(pin, l);
      FlattenHead(pin, l[1..]);
      assert s[n] == s[n..][0];
      assert t[n] == s[n];
      assert t[..n] == s[..n];
      RunLengthIs(pin, t, n);
    } else {
      assert t[0] == s[0];
      assert l[0] == [s[0]] && tokens[0][0] == t[0];
    }
  }

  lemma {:induction false} LastToken(pin: Pin, s: string)
    requires s != "" && !pin.inClass(s[|s| - 1])
    ensures Tokens(pin, s) != [] && IsSep(pin, Tokens(pin, s)[|Tokens(pin, s)| - 1])
    decreases |s|
  {
    var n := RunLength(pin, s);
    assert forall i :: 0 <= i < n ==> s[..n][i] == s[i];
    var k := if n == 0 then 1 else n;
    if k < |s| {
      LastToken(pin, s[k..]);
    }
  }

  /** The literal before a value: its last run, if it ends in one, and the tokens before that. */
  function HeadOf(pin: Pin, t: string): string {
    var l := Tokens(pin, t);
    if l != [] && IsRun(pin, l[|l| - 1]) then l[|l| - 1] else ""
  }

  function BeforeOf(pin: Pin, t: string): seq<string> {
    var l := Tokens(pin, t);
    if l != [] && IsRun(pin, l[|l| - 1]) then l[..|l| - 1] else l
  }

  /** The literal after a value: its first run, if it begins with one, and the tokens after that. */
  function TailOf(pin: Pin, t: string): string {
    var l := Tokens(pin, t);
    if l != [] && IsRun(pin, l[0]) then l[0] else ""
  }

  function AfterOf(pin: Pin, t: string): seq<string> {
    var l := Tokens(pin, t);
    if l != [] && IsRun(pin, l[0]) then l[1..] else l
  }

  lemma {:induction false} TokenKinds(pin: Pin, l: seq<string>, k: nat)
    requires Canonical(pin, l) && k < |l|
    ensures IsSep(pin, l[k]) || IsRun(pin, l[k])
    ensures l[k] != ""
    ensures IsRun(pin, l[k]) && k + 1 < |l| ==> IsSep(pin, l[k + 1])
  {
    if k > 0 {
      TokenKinds(pin, l[1..], k - 1);
    }
  }

  lemma {:induction false} CanonicalFront(pin: Pin, l: seq<string>, n: nat)
    requires Canonical(pin, l) && n <= |l|
    ensures Canonical(pin, l[..n])
  {
    if n > 0 {
      CanonicalFront(pin, l[1..], n - 1);
      assert l[..n][1..] == l[1..][..n - 1];
    }
  }

  lemma BeforeParts(pin: Pin, t: string)
    ensures Closed(pin, BeforeOf(pin, t)) && Flatten(BeforeOf(pin, t)) + HeadOf(pin, t) == t
    ensures HeadOf(pin, t) != "" ==> IsRun(pin, HeadOf(pin, t))
  {
    var l := Tokens(pin, t);
    TokensFlatten(pin, t);
    TokensCanonical(pin, t);
    if l != [] {
      TokenKinds(pin, l, |l| - 1);
      var b := l[..|l| - 1];
      CanonicalFront(pin, l, |l| - 1);
      if IsRun(pin, l[|l| - 1]) {
        if b != [] {
          TokenKinds(pin, l, |l| - 2);
        }
        assert l == b + [l[|l| - 1]];
        FlattenConcat(b, [l[|l| - 1]]);
        FlattenOne(l[|l| - 1]);
      } else {
        assert Flatten(l) + "" == Flatten(l);
      }
    }
  }

  lemma FlattenOne(t: string)
    ensures Flatten([t]) == t
  {
  }

  lemma AfterParts(pin: Pin, t: string)
    requires t != "" ==> !pin.inClass(t[|t| - 1])
    ensures Closed(pin, AfterOf(pin, t)) && TailOf(pin, t) + Flatten(AfterOf(pin, t)) == t
    ensures TailOf(pin, t) != "" ==> IsRun(pin, TailOf(pin, t))
    ensures AfterOf(pin, t) != [] ==> IsSep(pin, AfterOf(pin, t)[0])
    ensures t != "" ==> AfterOf(pin, t) != []
  {
    var l := Tokens(pin, t);
    TokensFlatten(pin, t);
    TokensCanonical(pin, t);
    if t != "" {
      LastToken(pin, t);
      TokenKinds(pin, l, 0);
      CanonicalRest(pin, l, 1);
      if IsRun(pin, l[0]) {
        assert |l| > 1;
        TokenKinds(pin, l, 1);
      }
    }
  }

  // ------------------------------------------------------------ the value in its run

  /** What the literals cover of the run a value is in: a part before it, a part after it, or,
      with an empty literal after it, whatever comes. */
  datatype Frame = Frame(head: string, tail: string, open: bool)

  datatype Span = Span(from: nat, to: nat)

  predicate EndsWith(t: string, x: string) {
    |x| <= |t| && t[|t| - |x|..] == x
  }

  /** Where the value is in a run. */
  function Cut(pin: Pin, f: Frame, t: string): (c: Option<Span>)
    ensures c.Some? ==> c.value.from <= c.value.to <= |t| && pin.matches(t[c.value.from..c.value.to])
  {
    var h := |f.head|;
    if !(f.head <= t) then None
    else if f.open then
      if pin.length.None? || h + pin.length.value > |t| then None
      else if pin.matches(t[h..h + pin.length.value]) then Some(Span(h, h + pin.length.value)) else None
    else if h + |f.tail| <= |t| && EndsWith(t, f.tail) && pin.matches(t[h..|t| - |f.tail|])
    then Some(Span(h, |t| - |f.tail|))
    else None
  }

  function ValueIn(t: string, c: Span): string
    requires c.from <= c.to <= |t|
  {
    t[c.from..c.to]
  }

  /** The run with another value. */
  function Refill(t: string, c: Span, value: string): string
    requires c.from <= c.to <= |t|
  {
    t[..c.from] + value + t[c.to..]
  }

  /** The run shows the value to a site with this frame. */
  predicate Shows(pin: Pin, f: Frame, u: string, t: string) {
    var c := Cut(pin, f, t);
    c.Some? && ValueIn(t, c.value) == u
  }

  function FrameOf(pin: Pin, template: Template): Frame {
    match template
    case End(_) => Frame("", "", true)
    case Piece(t, gap, rest) =>
      if gap.Value? then Frame(HeadOf(pin, t), TailOf(pin, rest.text), rest.text == "")
      else FrameOf(pin, rest)
  }

  // ------------------------------------------------------------ valid pins

  ghost predicate ValidPattern(pin: Pin) {
    && (forall v :: pin.matches(v) ==> v != "" && AllIn(pin, v))
    && (pin.length.Some? ==> forall v :: pin.matches(v) ==> |v| == pin.length.value)
    && (forall c :: Blank(c) || Quoting(c) ==> !pin.inClass(c))
  }

  /** One value; before it, in its literal, some character outside the class; after it a
      literal that ends outside the class, or none if all values have one length. A gap that
      runs up to a quote or newline stands between a character outside the class and a quote
      or newline, a gap of blanks before something else. */
  predicate ValidTemplate(pin: Pin, template: Template) {
    match template
    case End(_) => false
    case Piece(t, Value, rest) =>
      && BeforeOf(pin, t) != [] && rest.End?
      && (if rest.text == "" then pin.length.Some? else !pin.inClass(rest.text[|rest.text| - 1]))
    case Piece(t, Any, rest) =>
      && t != "" && !pin.inClass(t[|t| - 1])
      && rest.text != "" && Quoting(rest.text[0])
      && ValidTemplate(pin, rest)
    case Piece(t, Space, rest) =>
      && t != ""
      && rest.text != "" && !Blank(rest.text[0])
      && ValidTemplate(pin, rest)
  }

  /** The run a template begins with, if it begins inside the class. */
  function Opening(pin: Pin, template: Template): string {
    TailOf(pin, template.text)
  }

  ghost predicate ValidSite(pin: Pin, site: Site) {
    && ValidTemplate(pin, site.template)
    && (FrameOf(pin, site.template).open ==> Opening(pin, site.template) == "")
  }

  /** No run shows two frames different values. */
  ghost predicate Compatible(pin: Pin, f: Frame, g: Frame) {
    || f == g
    || (f.head == g.head && f.tail == "" == g.tail)
    || (!f.open && !g.open && forall u, v :: pin.matches(u) && pin.matches(v) ==> f.head + u + f.tail != g.head + v + g.tail)
  }

  ghost predicate ValidPin(pin: Pin) {
    && ValidPattern(pin)
    && (forall i :: 0 <= i < |pin.sites| ==> ValidSite(pin, pin.sites[i]))
    && forall i, j :: 0 <= i < |pin.sites| && 0 <= j < |pin.sites| ==>
         Compatible(pin, FrameOf(pin, pin.sites[i].template), FrameOf(pin, pin.sites[j].template))
  }

  // ------------------------------------------------------------ matching tokens

  predicate GapChar(gap: Gap, c: char) {
    if gap.Any? then !Quoting(c) else Blank(c)
  }

  predicate AllGap(gap: Gap, t: string) {
    forall j :: 0 <= j < |t| ==> GapChar(gap, t[j])
  }

  /** The tokens at the front that a gap takes. */
  function GapTokens(gap: Gap, tokens: seq<string>): (n: nat)
    ensures n <= |tokens|
  {
    if tokens == [] || !AllGap(gap, tokens[0]) then 0 else 1 + GapTokens(gap, tokens[1..])
  }

  /** A match on tokens: the token that holds the value, and how many are covered. */
  datatype TokenHit = TokenHit(at: nat, width: nat)

  /** The literal before the value, the value, and the literal after it. */
  function FitValue(pin: Pin, t: string, a: string, tokens: seq<string>): (r: Option<TokenHit>)
    ensures r.Some? ==>
      && r.value.at < r.value.width <= |tokens|
      && Cut(pin, Frame(HeadOf(pin, t), TailOf(pin, a), a == ""), tokens[r.value.at]).Some?
  {
    var b, after := BeforeOf(pin, t), AfterOf(pin, a);
    if b <= tokens && |b| < |tokens| && after <= tokens[|b| + 1..]
       && Cut(pin, Frame(HeadOf(pin, t), TailOf(pin, a), a == ""), tokens[|b|]).Some?
    then Some(TokenHit(|b|, |b| + 1 + |after|)) else None
  }

  /** A literal and the gap after it: how many tokens they take. */
  function LeadTokens(pin: Pin, t: string, gap: Gap, tokens: seq<string>): (r: Option<nat>)
    ensures r.Some? ==> r.value <= |tokens|
  {
    var l := Tokens(pin, t);
    if l <= tokens && (gap.Any? || GapTokens(gap, tokens[|l|..]) > 0)
    then Some(|l| + GapTokens(gap, tokens[|l|..])) else None
  }

  function Behind(m: Option<TokenHit>, k: nat): Option<TokenHit> {
    match m
    case None => None
    case Some(h) => Some(TokenHit(k + h.at, k + h.width))
  }

  function FitTokens(pin: Pin, template: Template, tokens: seq<string>): (r: Option<TokenHit>)
    ensures r.Some? ==>
      r.value.at < r.value.width <= |tokens| && Cut(pin, FrameOf(pin, template), tokens[r.value.at]).Some?
  {
    match template
    case End(_) => None
    case Piece(t, gap, rest) =>
      if gap.Value? then FitValue(pin, t, rest.text, tokens)
      else
        match LeadTokens(pin, t, gap, tokens)
        case None => None
        case Some(k) => Behind(FitTokens(pin, rest, tokens[k..]), k)
  }

  /** The front token cut down to the template's opening run, when it ends in it. */
  function Trimmed(pin: Pin, template: Template, tokens: seq<string>): (r: seq<string>)
    requires tokens != []
    ensures |r| == |tokens| && r[1..] == tokens[1..]
  {
    var y := Opening(pin, template);
    if y != "" && EndsWith(tokens[0], y) then [y] + tokens[1..] else tokens
  }

  function MatchTokens(pin: Pin, template: Template, tokens: seq<string>): (r: Option<TokenHit>)
    ensures r.Some? ==> r.value.at < r.value.width <= |tokens|
  {
    if tokens == [] then None else FitTokens(pin, template, Trimmed(pin, template, tokens))
  }
}
