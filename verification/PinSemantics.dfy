/**
 What matching a template means, apart from how the matcher searches: the texts a template
 describes, the longest gaps, and leftmost matches that do not overlap.
 */
module PinSemantics {
  import opened Options
  import opened Pins
  import opened PinMatching
  import opened PinScan

  /** `<<V>>` stands for a value, `<<X>>` for text without a quote or line feed, `<<S>>` for spaces
      and tabs. */
  ghost predicate Stands(pin: Pin, gap: Gap, s: string) {
    match gap
    case Value => pin.matches(s)
    case Any => '"' !in s && '\n' !in s
    case Space => s != "" && forall c :: c in s ==> c == ' ' || c == '\t'
  }

  /** The text is the template with its gaps filled, and the value is at from..to. */
  ghost predicate Describes(pin: Pin, template: Template, s: string, from: nat, to: nat)
    decreases template, 0
  {
    match template
    case End(t) => s == t && from == to == |t|
    case Piece(t, gap, rest) =>
      exists n: nat, f: nat, e: nat :: DescribesWith(pin, t, gap, rest, s, n, f, e) &&
        (if gap.Value? then from == |t| && to == |t| + n else from == |t| + n + f && to == |t| + n + e)
  }

  ghost predicate DescribesWith(pin: Pin, t: string, gap: Gap, rest: Template, s: string, n: nat, f: nat, e: nat)
    decreases rest, 1
  {
    |t| + n <= |s| && t <= s && Stands(pin, gap, s[|t|..|t| + n]) && Describes(pin, rest, s[|t| + n..], f, e)
  }

  lemma StandsIsInGap(pin: Pin, gap: Gap, s: string)
    ensures Stands(pin, gap, s) <==> InGap(pin, gap, s)
  {
    if Stands(pin, gap, s) {
      assert forall i :: 0 <= i < |s| ==> s[i] in s;
    }
  }

  lemma PiecesDescribe(pin: Pin, t: string, gap: Gap, rest: Template, s: string, n: nat, f: nat, e: nat)
    requires DescribesWith(pin, t, gap, rest, s, n, f, e)
    ensures
      if gap.Value? then Describes(pin, Piece(t, gap, rest), s, |t|, |t| + n)
      else Describes(pin, Piece(t, gap, rest), s, |t| + n + f, |t| + n + e)
  {
  }

  /** A match is a text the template describes, with the value where the match says. */
  lemma {:induction false} MatchIsDescribed(pin: Pin, template: Template, s: string)
    requires Fit(pin, template, s).Some?
    ensures
      var h := Fit(pin, template, s).value;
      h.from <= h.to <= h.end <= |s| && Describes(pin, template, s[..h.end], h.from, h.to)
    decreases template, 0, 0
  {
    hide Stands, InGap;
    match template
    case End(t) =>
    case Piece(t, gap, rest) =>
      FitUnfolds(pin, t, gap, rest, s);
      var x := s[|t|..];
      hide Describes, Fit, FitGap;
      GapIsDescribed(pin, t, gap, rest, s, |x|);
  }

  lemma {:induction false} GapIsDescribed(pin: Pin, t: string, gap: Gap, rest: Template, s: string, n: nat)
    requires t <= s && n <= |s| - |t| && FitGap(pin, gap, rest, s[|t|..], n).Some?
    ensures
      var h := Shifted(FitGap(pin, gap, rest, s[|t|..], n).value, |t|);
      h.from <= h.to <= h.end <= |s| && Describes(pin, Piece(t, gap, rest), s[..h.end], h.from, h.to)
    decreases rest, 1, n
  {
    var x := s[|t|..];
    if InGap(pin, gap, x[..n]) && Fit(pin, rest, x[n..]).Some? {
      MatchIsDescribed(pin, rest, x[n..]);
      var g := Fit(pin, rest, x[n..]).value;
      hide Stands, InGap, Describes, Fit;
      StandsIsInGap(pin, gap, x[..n]);
      var end := |t| + n + g.end;
      WithGap(pin, t, gap, rest, s, n, g, end);
    } else {
      GapIsDescribed(pin, t, gap, rest, s, n - 1);
    }
  }

  lemma WithGap(pin: Pin, t: string, gap: Gap, rest: Template, s: string, n: nat, g: Hit, end: nat)
    requires t <= s && |t| + n <= |s| && end == |t| + n + g.end <= |s| && g.from <= g.to <= g.end
    requires Stands(pin, gap, s[|t|..][..n]) && Describes(pin, rest, s[|t|..][n..][..g.end], g.from, g.to)
    ensures
      if gap.Value? then Describes(pin, Piece(t, gap, rest), s[..end], |t|, |t| + n)
      else Describes(pin, Piece(t, gap, rest), s[..end], |t| + n + g.from, |t| + n + g.to)
  {
    hide Stands, Describes;
    var u := s[..end];
    assert u[|t|..|t| + n] == s[|t|..][..n] && u[|t| + n..] == s[|t|..][n..][..g.end];
    PiecesDescribe(pin, t, gap, rest, u, n, g.from, g.to);
  }

  /** Whenever the template describes a text at the front, there is a match. */
  lemma {:induction false} DescribedIsMatched(pin: Pin, template: Template, s: string, end: nat, from: nat, to: nat)
    requires end <= |s| && Describes(pin, template, s[..end], from, to)
    ensures Fit(pin, template, s).Some?
    decreases template
  {
    hide Stands, InGap;
    match template
    case End(t) =>
    case Piece(t, gap, rest) =>
      var u := s[..end];
      var n: nat, f: nat, e: nat :| DescribesWith(pin, t, gap, rest, u, n, f, e);
      var x := s[|t|..];
      assert u[|t|..|t| + n] == x[..n];
      assert u[|t| + n..] == x[n..][..end - |t| - n];
      DescribedIsMatched(pin, rest, x[n..], end - |t| - n, f, e);
      StandsIsInGap(pin, gap, x[..n]);
      FitUnfolds(pin, t, gap, rest, s);
      hide Fit, Describes;
      SomeGap(pin, gap, rest, x, |x|, n);
  }

  lemma {:induction false} SomeGap(pin: Pin, gap: Gap, rest: Template, s: string, n: nat, k: nat)
    requires k <= n <= |s| && Takes(pin, gap, rest, s, k)
    ensures FitGap(pin, gap, rest, s, n).Some?
    decreases n
  {
    hide Fit, InGap;
    if n > k {
      SomeGap(pin, gap, rest, s, n - 1, k);
    }
  }

  /** The template matches at the front of a text exactly when it describes some beginning of it. */
  lemma MatchesIff(pin: Pin, template: Template, s: string)
    ensures Fit(pin, template, s).Some? <==>
      exists end: nat, from: nat, to: nat :: end <= |s| && Describes(pin, template, s[..end], from, to)
  {
    if Fit(pin, template, s).Some? {
      MatchIsDescribed(pin, template, s);
    }
    if end: nat, from: nat, to: nat :| end <= |s| && Describes(pin, template, s[..end], from, to) {
      DescribedIsMatched(pin, template, s, end, from, to);
    }
  }

  /** A gap is as long as the rest of the template allows. */
  lemma {:induction false} GapIsLongest(pin: Pin, gap: Gap, rest: Template, s: string, n: nat, k: nat)
    requires k <= n <= |s| && Stands(pin, gap, s[..k]) && Fit(pin, rest, s[k..]).Some?
    requires forall m: nat :: k < m <= n ==> !(Stands(pin, gap, s[..m]) && Fit(pin, rest, s[m..]).Some?)
    ensures
      var h := Fit(pin, rest, s[k..]).value;
      FitGap(pin, gap, rest, s, n) == Some(if gap.Value? then Hit(0, k, k + h.end) else Hit(k + h.from, k + h.to, k + h.end))
    decreases n
  {
    hide Fit, Stands, InGap;
    StandsIsInGap(pin, gap, s[..n]);
    if n > k {
      GapIsLongest(pin, gap, rest, s, n - 1, k);
    }
  }

  // ------------------------------------------------------------ all matches

  /** The first match of a text is the leftmost, and the search goes on behind it. */
  lemma LeftmostFirst(pin: Pin, site: Site, s: string, p: nat, value: string)
    requires p < |s| && Fit(pin, site.template, s[p..]).Some? && Fit(pin, site.template, s[p..]).value.end > 0
    requires forall q: nat :: q < p ==> Fit(pin, site.template, s[q..]).None?
    ensures
      var h := Shifted(Fit(pin, site.template, s[p..]).value, p);
      && p <= h.from <= h.to <= h.end <= |s|
      && Found(pin, site, s) == [s[h.from..h.to]] + Found(pin, site, s[h.end..])
      && Swapped(pin, site, s, value) == s[..h.from] + value + s[h.to..h.end] + Swapped(pin, site, s[h.end..], value)
  {
    hide Fit, Found, Swapped;
    FitInside(pin, site.template, s[p..]);
    Skip(pin, site, s, p, value);
    var g := Fit(pin, site.template, s[p..]).value;
    UnfoldFound(pin, site, s[p..], value, g);
    SuffixParts(s, p, g);
    Rejoin(s, p, g, value, Swapped(pin, site, s[p..][g.end..], value));
  }

  lemma SuffixParts(s: string, p: nat, g: Hit)
    requires p <= |s| && g.from <= g.to <= g.end <= |s| - p
    ensures s[p..][g.from..g.to] == s[p + g.from..p + g.to] && s[p..][g.end..] == s[p + g.end..]
  {
    SliceOfRest(s, p, g.from, g.to);
  }

  lemma Rejoin(s: string, p: nat, g: Hit, value: string, rest: string)
    requires p <= |s| && g.from <= g.to <= g.end <= |s| - p
    ensures s[..p] + (s[p..][..g.from] + value + s[p..][g.to..g.end] + rest)
         == s[..p + g.from] + value + s[p + g.to..p + g.end] + rest
  {
    assert s[..p] + s[p..][..g.from] == s[..p + g.from];
    SliceOfRest(s, p, g.to, g.end);
  }

  /** A text without a match has no values and stays as it is. */
  lemma NoMatches(pin: Pin, site: Site, s: string, value: string)
    requires forall q: nat :: q < |s| ==> Fit(pin, site.template, s[q..]).None?
    ensures Found(pin, site, s) == [] && Swapped(pin, site, s, value) == s
  {
    Skip(pin, site, s, |s|, value);
    hide Fit;
    assert s[|s|..] == "" && s[..|s|] + "" == s;
  }
}
