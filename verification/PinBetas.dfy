/**
 The pin whose value spans lines, claude.betas: what is written to its one site reads back,
 and decodes to the names that were encoded.
 */
module PinBetas {
  import opened Options
  import opened Text
  import opened BetaList
  import opened Pins
  import opened PinMatching
  import opened PinScan
  import opened PinRoundTrip
  import opened PinExact

  predicate IsName(n: string) {
    n != "" && '"' !in n && '\n' !in n
  }

  ghost predicate Names(names: seq<string>) {
    names != [] && forall i :: 0 <= i < |names| ==> IsName(names[i])
  }

  /** `(?:\t"[^"\n]+",\n)*\t"[^"\n]+",`: what the encoding makes of one name or more. */
  ghost predicate IsBetas(s: string) {
    exists names :: Names(names) && s == Encode(names)
  }

  const Opens := "var Betas = []string{\n"
  const Closes := "\n}"

  ghost const ClaudeBetas := Pin(
    c => true, IsBetas, None, [Site("internal/ccidentity/defaults.go", Piece(Opens, Value, End(Closes)), 1)])

  ghost const BetasSite := ClaudeBetas.sites[0]

  // ------------------------------------------------------------ the lines of a value

  /** Lines that begin with a tab and end with a comma. */
  predicate Lined(s: string) {
    && s != "" && s[0] == '\t' && s[|s| - 1] == ','
    && forall k :: 0 <= k < |s| && s[k] == '\n' ==> 0 < k < |s| - 1 && s[k - 1] == ',' && s[k + 1] == '\t'
  }

  lemma LineIsLined(n: string)
    requires IsName(n)
    ensures Lined(Line(n)) && '\n' !in Line(n)
  {
    var s := Line(n);
    assert s == "\t\"" + n + "\",";
    forall k | 0 <= k < |s|
      ensures s[k] != '\n'
    {
      if 2 <= k < 2 + |n| {
        assert s[k] == n[k - 2];
      }
    }
  }

  lemma {:induction false} BetasAreLined(names: seq<string>)
    requires Names(names)
    ensures Lined(Encode(names))
  {
    LineIsLined(names[0]);
    if |names| > 1 {
      BetasAreLined(names[1..]);
      assert Encode(names) == Line(names[0]) + "\n" + Encode(names[1..]);
      LinedJoin(Line(names[0]), Encode(names[1..]));
    } else {
      assert Encode(names) == Line(names[0]);
    }
  }

  lemma LinedJoin(a: string, b: string)
    requires Lined(a) && '\n' !in a && Lined(b)
    ensures Lined(a + "\n" + b)
  {
    var s := a + "\n" + b;
    assert forall k :: 0 <= k < |a| ==> s[k] == a[k] && a[k] in a;
    forall k | 0 <= k < |s| && s[k] == '\n'
      ensures 0 < k < |s| - 1 && s[k - 1] == ',' && s[k + 1] == '\t'
    {
      if k > |a| {
        assert s[k] == b[k - |a| - 1];
      }
    }
  }

  lemma MatchesAreLined(s: string)
    requires IsBetas(s)
    ensures Lined(s)
  {
    var names :| Names(names) && s == Encode(names);
    BetasAreLined(names);
  }

  // ------------------------------------------------------------ one match

  /** The site filled with a value. */
  function Filled(x: string): string {
    Opens + x + Closes
  }

  lemma OpensLines()
    ensures |Opens| > 1 && Opens[|Opens| - 1] == '\n' && Opens[|Opens| - 2] == '{'
    ensures forall k :: 0 <= k < |Opens| - 1 ==> Opens[k] != '\n'
  {
  }

  lemma ClosesHere(s: string, m: nat)
    requires m <= |s| && Closes <= s[m..]
    ensures m + 1 < |s| && s[m] == '\n' && s[m + 1] == '}'
  {
    assert s[m..][0] == '\n' && s[m..][1] == '}';
  }

  /** A line of a value is followed by another, which begins with a tab. */
  lemma LineFollows(s: string, m: nat, n: nat)
    requires m < n <= |s| && Lined(s[..n]) && s[m] == '\n'
    ensures m + 1 < n && s[m + 1] == '\t'
  {
    assert s[..n][m] == '\n';
    assert s[..n][m + 1] == s[m + 1];
  }

  /** The site matches at the front of a text exactly when the text begins with the site filled. */
  lemma FitFilled(x: string, r: string)
    requires IsBetas(x)
    ensures Fit(ClaudeBetas, BetasSite.template, Filled(x) + r) == Some(Hit(|Opens|, |Opens| + |x|, |Filled(x)|))
  {
    hide IsBetas, Lined, Opens, Closes;
    var s, t := Filled(x) + r, x + (Closes + r);
    assert s == Opens + t && s[|Opens|..] == t;
    MatchesAreLined(x);
    forall m: nat | m <= |t| && m != |x|
      ensures !Takes(ClaudeBetas, Value, End(Closes), t, m)
    {
      if Takes(ClaudeBetas, Value, End(Closes), t, m) {
        TwoEnds(t, m, |x|);
      }
    }
    assert t[..|x|] == x && t[|x|..] == Closes + r;
    OnlyLength(ClaudeBetas, Value, End(Closes), t, |t|, |x|);
    FitUnfolds(ClaudeBetas, Opens, Value, End(Closes), s);
  }

  lemma TwoEnds(t: string, m: nat, n: nat)
    requires m <= |t| && n <= |t| && IsBetas(t[..m]) && IsBetas(t[..n]) && Closes <= t[m..] && Closes <= t[n..]
    ensures m == n
  {
    hide Lined, IsBetas, Closes;
    MatchesAreLined(t[..m]);
    MatchesAreLined(t[..n]);
    ClosesHere(t, m);
    ClosesHere(t, n);
    if m < n {
      LineFollows(t, m, n);
    } else if n < m {
      LineFollows(t, n, m);
    }
  }

  lemma FitIsFilled(s: string)
    ensures
      var f := Fit(ClaudeBetas, BetasSite.template, s);
      f.Some? ==> exists x, r :: IsBetas(x) && s == Filled(x) + r
  {
    hide IsBetas, Lined, Opens, Closes, FitGap, Fit, Takes;
    if Fit(ClaudeBetas, BetasSite.template, s).Some? {
      FitUnfolds(ClaudeBetas, Opens, Value, End(Closes), s);
      var t := s[|Opens|..];
      GapTaken(t, |t|);
      var n: nat :| n <= |t| && Takes(ClaudeBetas, Value, End(Closes), t, n);
      TakesValue(ClaudeBetas, Closes, t, n);
      var x, r := t[..n], t[n..][|Closes|..];
      assert t[n..] == Closes + r;
      assert s == Opens + t && t == x + t[n..];
      assert s == Filled(x) + r;
    }
  }

  lemma {:induction false} GapTaken(t: string, n: nat)
    requires n <= |t| && FitGap(ClaudeBetas, Value, End(Closes), t, n).Some?
    ensures exists k: nat :: k <= n && Takes(ClaudeBetas, Value, End(Closes), t, k)
    decreases n
  {
    hide IsBetas, Fit, InGap;
    if !Takes(ClaudeBetas, Value, End(Closes), t, n) {
      GapTaken(t, n - 1);
    }
  }

  // ------------------------------------------------------------ matches of a text

  lemma Overlap(s: string, b: string, i: nat)
    requires b <= s && i <= |s| && b <= s[i..]
    ensures i < |b| ==> b[|b| - 1] == b[|b| - 1 - i]
  {
    if i < |b| {
      assert s[|b| - 1] == s[i..][|b| - 1 - i];
    }
  }

  /** Two openings of the site in one text: the second is not in the first's match. */
  lemma OpeningsApart(s: string, x: string, i: nat)
    requires Filled(x) <= s && Lined(x) && 0 < i <= |s| && Opens <= s[i..]
    ensures i + |Opens| > |Filled(x)|
  {
    OpensLines();
    hide Opens;
    var b, j := |Opens|, i + |Opens| - 1;
    assert s[j] == s[i..][b - 1] == '\n' && s[j - 1] == s[i..][b - 2] == '{';
    assert s[..|Filled(x)|][..b] == s[..b];
    Overlap(s, Opens, i);
    FilledLines(s, x, j);
  }

  /** A line break in a match, other than the first, has a comma before it. */
  lemma FilledLines(s: string, x: string, j: nat)
    requires Filled(x) <= s && Lined(x) && j < |s|
    ensures |Opens| <= j < |Filled(x)| && s[j] == '\n' ==> s[j - 1] == ','
  {
    var b := |Opens|;
    assert Filled(x) == Opens + x + "\n}";
    if j < b {
    } else if j < b + |x| {
      assert s[j] == x[j - b];
      assert j > b ==> s[j - 1] == x[j - b - 1];
    } else if j == b + |x| {
      assert s[j - 1] == x[|x| - 1];
    } else if j < |Filled(x)| {
      assert s[j] == '}';
    }
  }

  /** A match at the front, a character without one, or the end. */
  lemma Unfold(x: string, r: string, w: string)
    requires IsBetas(x)
    ensures |r| < |Filled(x) + r|
    ensures Found(ClaudeBetas, BetasSite, Filled(x) + r) == [x] + Found(ClaudeBetas, BetasSite, r)
    ensures Swapped(ClaudeBetas, BetasSite, Filled(x) + r, w) == Filled(w) + Swapped(ClaudeBetas, BetasSite, r, w)
  {
    hide IsBetas, Fit;
    var s, n, m := Filled(x) + r, |Opens|, |Opens| + |x|;
    FitFilled(x, r);
    assert s == Opens + (x + (Closes + r));
    assert s[n..m] == x && s[..n] == Opens && s[m..|Filled(x)|] == Closes && s[|Filled(x)|..] == r;
    UnfoldFound(ClaudeBetas, BetasSite, s, w, Hit(n, m, |Filled(x)|));
  }

  ghost predicate Begins(s: string) {
    Fit(ClaudeBetas, BetasSite.template, s).Some?
  }

  /** Writing leaves a text as it is, or at least up to and with the first opening of the site. */
  predicate KeptTo(s: string, t: string, i: nat) {
    i + |Opens| <= |s| && i + |Opens| <= |t| && s[..i + |Opens|] == t[..i + |Opens|] && Opens <= s[i..]
  }

  lemma {:induction false} FirstOpening(s: string, w: string)
    ensures
      var t := Swapped(ClaudeBetas, BetasSite, s, w);
      t == s || exists i: nat :: KeptTo(s, t, i)
    decreases |s|
  {
    hide IsBetas, Opens, Fit;
    var t := Swapped(ClaudeBetas, BetasSite, s, w);
    if s != "" {
      if Begins(s) {
        FitIsFilled(s);
        var x, r :| IsBetas(x) && s == Filled(x) + r;
        Unfold(x, r, w);
        assert KeptTo(s, t, 0);
      } else {
        FirstOpening(s[1..], w);
        var t' := Swapped(ClaudeBetas, BetasSite, s[1..], w);
        assert t == [s[0]] + t';
        if t' == s[1..] {
          assert t == s;
        } else {
          var i: nat :| KeptTo(s[1..], t', i);
          LaterOpening(s[0], s[1..], t', i);
          assert s == [s[0]] + s[1..] && KeptTo(s, t, i + 1);
        }
      }
    }
  }

  lemma LaterOpening(c: char, s: string, t: string, i: nat)
    requires KeptTo(s, t, i)
    ensures KeptTo([c] + s, [c] + t, i + 1)
  {
    var n := i + |Opens|;
    assert ([c] + s)[..n + 1] == [c] + s[..n] && ([c] + t)[..n + 1] == [c] + t[..n];
    assert ([c] + s)[i + 1..] == s[i..];
  }

  /** Writing makes no match where there was none. */
  lemma NoNewMatch(c: char, s: string, w: string)
    requires !Begins([c] + s)
    ensures !Begins([c] + Swapped(ClaudeBetas, BetasSite, s, w))
  {
    hide IsBetas, Opens, Fit, Swapped, Lined;
    var t := Swapped(ClaudeBetas, BetasSite, s, w);
    FirstOpening(s, w);
    if t != s && Begins([c] + t) {
      var i: nat :| KeptTo(s, t, i);
      LaterOpening(c, s, t, i);
      FitIsFilled([c] + t);
      var x, r :| IsBetas(x) && [c] + t == Filled(x) + r;
      MatchesAreLined(x);
      OpeningInBoth(c, s, t, i);
      OpeningsApart([c] + t, x, i + 1);
      SamePrefix([c] + s, [c] + t, i + 1 + |Opens|, |Filled(x)|);
      assert [c] + s == Filled(x) + ([c] + s)[|Filled(x)|..];
      FitFilled(x, ([c] + s)[|Filled(x)|..]);
    }
  }

  lemma OpeningInBoth(c: char, s: string, t: string, i: nat)
    requires KeptTo(s, t, i)
    ensures Opens <= ([c] + t)[i + 1..] && i + 1 <= |[c] + t|
  {
    var n := |Opens|;
    assert ([c] + t)[i + 1..] == t[i..];
    assert t[i..][..n] == t[..i + n][i..] == s[..i + n][i..] == s[i..][..n];
  }

  lemma SamePrefix(s: string, t: string, n: nat, m: nat)
    requires m <= n <= |s| && n <= |t| && s[..n] == t[..n]
    ensures s[..m] == t[..m]
  {
    assert s[..n][..m] == s[..m] && t[..n][..m] == t[..m];
  }

  // ------------------------------------------------------------ the round trip

  /** Every match of a text is written, reads back, and can be written again as if it had not been. */
  lemma {:induction false} WrittenBetas(s: string, w: string, u: string)
    requires IsBetas(w)
    ensures
      var t := Swapped(ClaudeBetas, BetasSite, s, w);
      && |Found(ClaudeBetas, BetasSite, t)| == |Found(ClaudeBetas, BetasSite, s)|
      && AllAre(Found(ClaudeBetas, BetasSite, t), w)
      && Swapped(ClaudeBetas, BetasSite, t, u) == Swapped(ClaudeBetas, BetasSite, s, u)
    decreases |s|
  {
    hide IsBetas, Opens, Closes, Fit, Lined;
    var t := Swapped(ClaudeBetas, BetasSite, s, w);
    if s != "" {
      if Begins(s) {
        FitIsFilled(s);
        var x, r :| IsBetas(x) && s == Filled(x) + r;
        Unfold(x, r, w);
        Unfold(x, r, u);
        WrittenBetas(r, w, u);
        Unfold(w, Swapped(ClaudeBetas, BetasSite, r, w), u);
      } else {
        var r, t' := s[1..], Swapped(ClaudeBetas, BetasSite, s[1..], w);
        WrittenBetas(r, w, u);
        assert s == [s[0]] + r && t == [s[0]] + t';
        NoNewMatch(s[0], r, w);
        assert t[0] == s[0] && t[1..] == t';
      }
    }
  }

  /** Writing the value read changes nothing. */
  lemma {:induction false} SameBetas(s: string, v: string)
    requires AllAre(Found(ClaudeBetas, BetasSite, s), v)
    ensures Swapped(ClaudeBetas, BetasSite, s, v) == s
    decreases |s|
  {
    hide IsBetas, Opens, Closes, Fit, Lined;
    if s != "" {
      if Begins(s) {
        FitIsFilled(s);
        var x, r :| IsBetas(x) && s == Filled(x) + r;
        Unfold(x, r, v);
        var f := Found(ClaudeBetas, BetasSite, s);
        assert f[0] == x && f[1..] == Found(ClaudeBetas, BetasSite, r);
        assert x in f;
        assert forall y :: y in f[1..] ==> y in f;
        SameBetas(r, v);
      } else {
        SameBetas(s[1..], v);
        assert s == [s[0]] + s[1..];
      }
    }
  }

  /** Names written read back and decode to themselves; a second write has nothing to do, and
      writing the old value again restores every file. */
  lemma BetasRoundTrip(files: Files, v: string, names: seq<string>)
    requires Names(names) && ReadSites(files, ClaudeBetas, ClaudeBetas.sites) == Ok({v})
    ensures
      var after := WriteSites(files, ClaudeBetas, ClaudeBetas.sites, Encode(names));
      && ReadSites(after, ClaudeBetas, ClaudeBetas.sites) == Ok({Encode(names)})
      && Decode(Encode(names)) == names
      && WriteSites(after, ClaudeBetas, ClaudeBetas.sites, Encode(names)) == after
      && WriteSites(after, ClaudeBetas, ClaudeBetas.sites, v) == files
  {
    hide Found, Swapped, IsName;
    var w := Encode(names);
    assert IsBetas(w);
    NamesAreQuotable(names);
    BetaList.RoundTrip(names);
    forall s, u | AllAre(Found(ClaudeBetas, BetasSite, s), u)
      ensures ReadsBack(ClaudeBetas, BetasSite, s, w)
    {
      WrittenBetas(s, w, u);
    }
    OneSiteReadsBack(ClaudeBetas, files, v, w);
    SitesExist(files, ClaudeBetas, ClaudeBetas.sites, 0);
    var s := files[BetasSite.path];
    var t := Swapped(ClaudeBetas, BetasSite, s, w);
    WrittenBetas(s, w, w);
    WrittenBetas(s, w, v);
    SameBetas(s, v);
    OneSiteWrites(files, w);
    OneSiteWrites(files[BetasSite.path := t], w);
    OneSiteWrites(files[BetasSite.path := t], v);
    assert files[BetasSite.path := t][BetasSite.path := t] == files[BetasSite.path := t];
    assert files[BetasSite.path := t][BetasSite.path := s] == files;
  }

  lemma NamesAreQuotable(names: seq<string>)
    requires Names(names)
    ensures forall i :: 0 <= i < |names| ==> names[i] != "" && '"' !in names[i]
  {
  }

  lemma OneSiteWrites(files: Files, w: string)
    requires BetasSite.path in files
    ensures WriteSites(files, ClaudeBetas, ClaudeBetas.sites, w)
         == files[BetasSite.path := Swapped(ClaudeBetas, BetasSite, files[BetasSite.path], w)]
  {
    hide Swapped;
  }
}
