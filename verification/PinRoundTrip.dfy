/**
 What a successful write leaves in the files: the written value at every site with the
 same match counts, everything else untouched, and nothing for a second write to do.
 */
module PinRoundTrip {
  import opened Options
  import opened Pins
  import opened PinTokens
  import opened PinMatching
  import opened PinScan
  import opened PinWrites

  // ------------------------------------------------------------ one substitution in one text

  lemma ReadTokens(pin: Pin, site: Site, s: string, w: string)
    requires ValidPattern(pin) && ValidSite(pin, site)
    ensures Canonical(pin, Tokens(pin, s)) && Flatten(Tokens(pin, s)) == s
    ensures Found(pin, site, s) == FoundTokens(pin, site.template, Tokens(pin, s))
    ensures Swapped(pin, site, s, w) == Flatten(SwapTokens(pin, site.template, Tokens(pin, s), w))
  {
    hide *;
    TokensFlatten(pin, s);
    TokensCanonical(pin, s);
    ScansAlike(pin, site, Tokens(pin, s), w);
  }

  ghost predicate Among(values: seq<string>, v: string, w: string) {
    forall x :: x in values ==> x == v || x == w
  }

  lemma SwappedTokens(pin: Pin, site: Site, s: string, v: string, w: string)
    requires ValidPattern(pin) && ValidSite(pin, site) && pin.matches(w) && Among(Found(pin, site, s), v, w)
    ensures
      var a, t := Tokens(pin, s), Swapped(pin, site, s, w);
      && Tokens(pin, t) == SwapTokens(pin, site.template, a, w)
      && Moved(pin, FrameOf(pin, site.template), a, Tokens(pin, t), v, w)
  {
    hide *;
    var a := Tokens(pin, s);
    ReadTokens(pin, site, s, w);
    SiteParts(pin, site);
    AmongIs(Found(pin, site, s), v, w);
    SwapIsMoved(pin, site.template, a, v, w);
    MovedCanonical(pin, FrameOf(pin, site.template), a, SwapTokens(pin, site.template, a, w), v, w);
    TokensOfFlatten(pin, SwapTokens(pin, site.template, a, w));
  }

  lemma AmongIs(values: seq<string>, v: string, w: string)
    ensures Among(values, v, w) <==> forall x :: x in values ==> x == v || x == w
  {
  }

  /** One for one the values found before, with w for some v. */
  ghost predicate Updated(before: seq<string>, after: seq<string>, v: string, w: string) {
    && |after| == |before|
    && forall k :: 0 <= k < |before| ==> after[k] == before[k] || (before[k] == v && after[k] == w)
  }

  /** The site that writes: its matches stay, and all of them now hold the value. */
  lemma OwnWrite(pin: Pin, site: Site, s: string, v: string, w: string)
    requires ValidPattern(pin) && ValidSite(pin, site) && pin.matches(w) && Among(Found(pin, site, s), v, w)
    requires RestAvoids(pin, site.template, FrameOf(pin, site.template), v)
    requires RestAvoids(pin, site.template, FrameOf(pin, site.template), w)
    ensures
      var t := Swapped(pin, site, s, w);
      && Parallel(pin, site.template, Tokens(pin, s), Tokens(pin, t))
      && |Found(pin, site, t)| == |Found(pin, site, s)| && forall x :: x in Found(pin, site, t) ==> x == w
  {
    hide *;
    var a, t := Tokens(pin, s), Swapped(pin, site, s, w);
    SwappedTokens(pin, site, s, v, w);
    ReadTokens(pin, site, s, w);
    ReadTokens(pin, site, t, w);
    SiteParts(pin, site);
    OwnParallel(pin, site.template, a, v, w);
    OwnFound(pin, site.template, a, w);
    SameFrame(pin, FrameOf(pin, site.template));
    ParallelFound(pin, site.template, FrameOf(pin, site.template), a, Tokens(pin, t), v, w);
  }

  lemma SameFrame(pin: Pin, f: Frame)
    ensures Compatible(pin, f, f)
  {
  }

  /** Another site of the file: its matches stay, with w for some v. */
  lemma OtherWrite(pin: Pin, site: Site, other: Site, s: string, v: string, w: string)
    requires ValidPattern(pin) && ValidSite(pin, site) && ValidSite(pin, other)
    requires Compatible(pin, FrameOf(pin, site.template), FrameOf(pin, other.template))
    requires pin.matches(w) && Among(Found(pin, site, s), v, w)
    requires RestAvoids(pin, other.template, FrameOf(pin, site.template), v) && FirstAvoids(pin, other.template, FrameOf(pin, site.template), v)
    requires RestAvoids(pin, other.template, FrameOf(pin, site.template), w) && FirstAvoids(pin, other.template, FrameOf(pin, site.template), w)
    ensures
      var t := Swapped(pin, site, s, w);
      && Parallel(pin, other.template, Tokens(pin, s), Tokens(pin, t))
      && Updated(Found(pin, other, s), Found(pin, other, t), v, w)
  {
    hide *;
    var a, t, f := Tokens(pin, s), Swapped(pin, site, s, w), FrameOf(pin, site.template);
    SwappedTokens(pin, site, s, v, w);
    ReadTokens(pin, other, s, w);
    ReadTokens(pin, other, t, w);
    SiteParts(pin, other);
    OthersParallel(pin, other.template, f, a, Tokens(pin, t), v, w);
    ParallelFound(pin, other.template, f, a, Tokens(pin, t), v, w);
    UpdatedIs(Found(pin, other, s), Found(pin, other, t), v, w);
  }

  lemma UpdatedIs(x: seq<string>, y: seq<string>, v: string, w: string)
    ensures Updated(x, y, v, w) <==> |x| == |y| && forall k :: 0 <= k < |x| ==> y[k] == x[k] || (x[k] == v && y[k] == w)
    ensures Updated(x, y, v, w) && Among(x, v, w) ==> Among(y, v, w)
    ensures Updated(x, y, v, w) && (forall z :: z in x ==> z == w) ==> forall z :: z in y ==> z == w
  {
    if Updated(x, y, v, w) {
      assert forall k :: 0 <= k < |x| ==> x[k] in x;
    }
  }

  // ------------------------------------------------------------ the files

  ghost predicate AllAre(values: seq<string>, w: string) {
    forall x :: x in values ==> x == w
  }

  /** Every site has its count of matches, holding v or w; the first k sites hold w. */
  ghost predicate Holding(pin: Pin, files: Files, v: string, w: string, k: nat) {
    forall j :: 0 <= j < |pin.sites| ==> HoldingAt(pin, files, v, w, k, j)
  }

  ghost predicate HoldingAt(pin: Pin, files: Files, v: string, w: string, k: nat, j: nat)
    requires j < |pin.sites|
  {
    var site := pin.sites[j];
    && site.path in files
    && |Found(pin, site, files[site.path])| == site.count
    && Among(Found(pin, site, files[site.path]), v, w)
    && (j < k ==> AllAre(Found(pin, site, files[site.path]), w))
  }

  ghost predicate Writable(pin: Pin, v: string, w: string) {
    ValidPin(pin) && pin.matches(w) && Clear(pin, v) && Clear(pin, w)
  }

  /** The files after site k has been written. */
  function Next(pin: Pin, files: Files, w: string, k: nat): Files
    requires k < |pin.sites| && pin.sites[k].path in files
  {
    files[pin.sites[k].path := Swapped(pin, pin.sites[k], files[pin.sites[k].path], w)]
  }

  lemma StepHolds(pin: Pin, files: Files, v: string, w: string, k: nat)
    requires Writable(pin, v, w) && k < |pin.sites| && Holding(pin, files, v, w, k)
    ensures pin.sites[k].path in files
    ensures Next(pin, files, w, k).Keys == files.Keys && Holding(pin, Next(pin, files, w, k), v, w, k + 1)
  {
    hide Found, Swapped, ValidSite, ValidPattern, FrameOf, Compatible, RestAvoids, FirstAvoids, Among, AllAre;
    var site := pin.sites[k];
    assert HoldingAt(pin, files, v, w, k, k);
    var next, done := Next(pin, files, w, k), k + 1;
    forall j | 0 <= j < |pin.sites|
      ensures HoldingAt(pin, next, v, w, done, j)
    {
      assert HoldingAt(pin, files, v, w, k, j);
      SiteStep(pin, files, v, w, k, j);
    }
  }

  lemma SiteStep(pin: Pin, files: Files, v: string, w: string, k: nat, j: nat)
    requires Writable(pin, v, w) && k < |pin.sites| && j < |pin.sites|
    requires HoldingAt(pin, files, v, w, k, k) && HoldingAt(pin, files, v, w, k, j)
    ensures HoldingAt(pin, Next(pin, files, w, k), v, w, k + 1, j)
    ensures
      var p := pin.sites[j].path;
      Parallel(pin, pin.sites[j].template, Tokens(pin, files[p]), Tokens(pin, Next(pin, files, w, k)[p]))
  {
    hide Found, Swapped, ValidSite, ValidPattern, FrameOf, Compatible, RestAvoids, FirstAvoids, Tokens, Parallel, Updated, Among, AllAre;
    var site, other := pin.sites[k], pin.sites[j];
    var s := files[site.path];
    if j == k {
      OwnWrite(pin, site, s, v, w);
      AllAreIs(Found(pin, site, Swapped(pin, site, s, w)), v, w);
    } else if other.path == site.path {
      OtherWrite(pin, site, other, s, v, w);
      UpdatedIs(Found(pin, other, s), Found(pin, other, Swapped(pin, site, s, w)), v, w);
      AllAreIs(Found(pin, other, s), v, w);
      AllAreIs(Found(pin, other, Swapped(pin, site, s, w)), v, w);
    } else {
      ParallelItself(pin, other.template, Tokens(pin, files[other.path]));
    }
  }

  lemma AllAreIs(values: seq<string>, v: string, w: string)
    ensures AllAre(values, w) <==> forall x :: x in values ==> x == w
    ensures AllAre(values, w) ==> Among(values, v, w)
  {
  }

  lemma {:induction false} ParallelItself(pin: Pin, template: Template, a: seq<string>)
    ensures Parallel(pin, template, a, a)
    decreases |a|
  {
    hide MatchTokens;
    if a != [] {
      ParallelItself(pin, template, a[match MatchTokens(pin, template, a) case None => 1 case Some(h) => h.width..]);
    }
  }

  lemma WriteUnfolds(pin: Pin, files: Files, w: string, k: nat)
    requires k < |pin.sites| && pin.sites[k].path in files
    ensures WriteSites(files, pin, pin.sites[k..], w) == WriteSites(Next(pin, files, w, k), pin, pin.sites[k + 1..], w)
    ensures ChangedPaths(files, pin, pin.sites[k..], w) ==
      (if Next(pin, files, w, k) != files then {pin.sites[k].path} else {})
      + ChangedPaths(Next(pin, files, w, k), pin, pin.sites[k + 1..], w)
  {
    hide Swapped;
    assert pin.sites[k..][0] == pin.sites[k] && pin.sites[k..][1..] == pin.sites[k + 1..];
    var p, t := pin.sites[k].path, Swapped(pin, pin.sites[k], files[pin.sites[k].path], w);
    if t == files[p] {
      assert files[p := t] == files;
    } else {
      assert files[p := t][p] != files[p];
    }
  }

  /** The whole write, site after site, even when sites share files. */
  lemma {:induction false} WriteHolds(pin: Pin, files: Files, v: string, w: string, k: nat)
    requires Writable(pin, v, w) && k <= |pin.sites| && Holding(pin, files, v, w, k)
    ensures
      var after := WriteSites(files, pin, pin.sites[k..], w);
      after.Keys == files.Keys && Holding(pin, after, v, w, |pin.sites|)
    decreases |pin.sites| - k
  {
    hide Holding, Writable, Swapped;
    if k < |pin.sites| {
      StepHolds(pin, files, v, w, k);
      WriteUnfolds(pin, files, w, k);
      WriteHolds(pin, Next(pin, files, w, k), v, w, k + 1);
    }
  }

  lemma ReadHolds(pin: Pin, files: Files, v: string, w: string)
    requires ReadSites(files, pin, pin.sites) == Ok({v})
    ensures Holding(pin, files, v, w, 0)
  {
    hide Found;
    forall j | 0 <= j < |pin.sites|
      ensures HoldingAt(pin, files, v, w, 0, j)
    {
      SitesExist(files, pin, pin.sites, j);
    }
  }

  lemma HoldingReads(pin: Pin, files: Files, v: string, w: string)
    requires Holding(pin, files, v, w, |pin.sites|)
    ensures ReadsAs(files, pin, pin.sites, w)
  {
    hide Found;
    forall j | 0 <= j < |pin.sites|
      ensures pin.sites[j].path in files
      ensures |Found(pin, pin.sites[j], files[pin.sites[j].path])| == pin.sites[j].count
      ensures forall x :: x in Found(pin, pin.sites[j], files[pin.sites[j].path]) ==> x == w
    {
      assert HoldingAt(pin, files, v, w, |pin.sites|, j);
    }
  }

  lemma {:induction false} ReadsAsOk(files: Files, pin: Pin, sites: seq<Site>, value: string)
    requires ReadsAs(files, pin, sites, value)
    ensures ReadSites(files, pin, sites).Ok? && forall v :: v in ReadSites(files, pin, sites).value ==> v == value
    ensures (exists i :: 0 <= i < |sites| && sites[i].count > 0) ==> value in ReadSites(files, pin, sites).value
  {
    hide Found;
    if sites != [] {
      forall i | 0 <= i < |sites[1..]|
        ensures sites[1..][i] == sites[i + 1]
      {
      }
      ReadsAsOk(files, pin, sites[1..], value);
      var found := Found(pin, sites[0], files[sites[0].path]);
      assert sites[0].count > 0 ==> found[0] in found;
      if i :| 0 <= i < |sites| && sites[i].count > 0 {
        if i > 0 {
          assert sites[1..][i - 1].count > 0;
        }
      }
    }
  }

  lemma {:induction false} SomeSiteCounts(files: Files, pin: Pin, sites: seq<Site>, v: string)
    requires ReadSites(files, pin, sites).Ok? && v in ReadSites(files, pin, sites).value
    ensures exists i :: 0 <= i < |sites| && sites[i].count > 0
  {
    hide Found;
    if v in Found(pin, sites[0], files[sites[0].path]) {
      assert sites[0].count > 0;
    } else {
      SomeSiteCounts(files, pin, sites[1..], v);
      var i :| 0 <= i < |sites[1..]| && sites[1..][i].count > 0;
      assert sites[i + 1].count > 0;
    }
  }

  lemma Idle(pin: Pin, site: Site, s: string, w: string)
    requires ValidPattern(pin) && ValidSite(pin, site) && forall x :: x in Found(pin, site, s) ==> x == w
    ensures Swapped(pin, site, s, w) == s
  {
    hide *;
    ReadTokens(pin, site, s, w);
    SiteParts(pin, site);
    SwapSettled(pin, site.template, Tokens(pin, s), w);
  }

  /** Write, then read: the written value, at every site, with the same counts; and a second
      write has nothing to do. */
  lemma WriteThenRead(pin: Pin, files: Files, v: string, w: string)
    requires Writable(pin, v, w) && ReadSites(files, pin, pin.sites) == Ok({v})
    ensures
      var after := WriteSites(files, pin, pin.sites, w);
      && after.Keys == files.Keys
      && ReadSites(after, pin, pin.sites) == Ok({w})
      && ReadsAs(after, pin, pin.sites, w)
      && Settled(after, pin, w)
  {
    hide Found, Swapped, Holding, Clear, ValidSite, ValidPattern, FrameOf, Compatible;
    var after := WriteSites(files, pin, pin.sites, w);
    assert pin.sites[0..] == pin.sites;
    ReadHolds(pin, files, v, w);
    WriteHolds(pin, files, v, w, 0);
    HoldingReads(pin, after, v, w);
    ReadsAsOk(after, pin, pin.sites, w);
    SomeSiteCounts(files, pin, pin.sites, v);
    assert ReadSites(after, pin, pin.sites).value == {w};
    forall i | 0 <= i < |pin.sites| && pin.sites[i].path in after
      ensures Swapped(pin, pin.sites[i], after[pin.sites[i].path], w) == after[pin.sites[i].path]
    {
      Idle(pin, pin.sites[i], after[pin.sites[i].path], w);
    }
  }

  lemma {:induction false} SettledReportsNothing(pin: Pin, files: Files, sites: seq<Site>, value: string)
    requires forall i :: 0 <= i < |sites| && sites[i].path in files ==>
      Swapped(pin, sites[i], files[sites[i].path], value) == files[sites[i].path]
    ensures ChangedPaths(files, pin, sites, value) == {} && WriteSites(files, pin, sites, value) == files
  {
    hide Swapped;
    if sites != [] && sites[0].path in files {
      assert files[sites[0].path := files[sites[0].path]] == files;
      forall i | 0 <= i < |sites[1..]| && sites[1..][i].path in files
        ensures Swapped(pin, sites[1..][i], files[sites[1..][i].path], value) == files[sites[1..][i].path]
      {
        assert sites[1..][i] == sites[i + 1];
      }
      SettledReportsNothing(pin, files, sites[1..], value);
    }
  }

  // ------------------------------------------------------------ nothing else changes

  /** Token n of the text of file p is the value of a match of site i. */
  ghost predicate AtSpot(pin: Pin, i: nat, p: string, text: string, n: nat)
    requires i < |pin.sites|
  {
    pin.sites[i].path == p && IsSpot(pin, pin.sites[i].template, Tokens(pin, text), n)
  }

  /** Token for token: where one of the first k sites matched, the value in the run is `w` and
      the rest of the run is as it was; everywhere else nothing changed. */
  ghost predicate WrittenUpTo(pin: Pin, k: nat, p: string, before: string, after: string, w: string)
    requires k <= |pin.sites|
  {
    && |Tokens(pin, after)| == |Tokens(pin, before)|
    && forall n :: 0 <= n < |Tokens(pin, before)| ==> TokenWritten(pin, k, p, before, n, Tokens(pin, after)[n], w)
  }

  ghost predicate TokenWritten(pin: Pin, k: nat, p: string, before: string, n: nat, token: string, w: string)
    requires k <= |pin.sites| && n < |Tokens(pin, before)|
  {
    && (forall i :: 0 <= i < k && AtSpot(pin, i, p, before, n) ==>
          token == Refilled(pin, FrameOf(pin, pin.sites[i].template), Tokens(pin, before)[n], w))
    && ((forall i :: 0 <= i < k ==> !AtSpot(pin, i, p, before, n)) ==> token == Tokens(pin, before)[n])
  }

  /** The sites of file p match in both texts at the same places. */
  ghost predicate SameSpots(pin: Pin, p: string, a: string, b: string) {
    forall i, n: nat :: 0 <= i < |pin.sites| ==> AtSpot(pin, i, p, a, n) == AtSpot(pin, i, p, b, n)
  }

  /** A second site that sees the value sees the same one, so writing it again changes nothing. */
  lemma WrittenOnce(pin: Pin, f: Frame, g: Frame, t: string, w: string)
    requires ValidPattern(pin) && Compatible(pin, f, g) && pin.matches(w)
    requires Cut(pin, f, t).Some? && Cut(pin, g, t).Some?
    ensures Refilled(pin, g, Refilled(pin, f, t, w), w) == Refilled(pin, g, t, w) == Refilled(pin, f, t, w)
  {
    hide ValidPattern, Compatible;
    CutMoved(pin, f, g, t, w);
    RefilledShows(pin, f, t, w);
    RefilledShows(pin, g, t, w);
    RefilledByCut(pin, f, g, t, w);
    RefilledSame(pin, g, Refilled(pin, g, t, w), w);
  }

  lemma RefilledByCut(pin: Pin, f: Frame, g: Frame, t: string, w: string)
    requires Cut(pin, f, t) == Cut(pin, g, t)
    ensures Refilled(pin, f, t, w) == Refilled(pin, g, t, w)
  {
    hide Cut;
  }

  /** What site k writes, on top of what the sites before it wrote. */
  lemma StepWrites(pin: Pin, files: Files, v: string, w: string, k: nat, p: string, origin: string)
    requires Writable(pin, v, w) && k < |pin.sites| && Holding(pin, files, v, w, k) && p in files
    requires WrittenUpTo(pin, k, p, origin, files[p], w) && SameSpots(pin, p, origin, files[p])
    ensures pin.sites[k].path in files && p in Next(pin, files, w, k)
    ensures WrittenUpTo(pin, k + 1, p, origin, Next(pin, files, w, k)[p], w) && SameSpots(pin, p, origin, Next(pin, files, w, k)[p])
  {
    hide Found, Swapped, ValidSite, ValidPattern, FrameOf, Compatible, Clear, Tokens, Parallel, Among, AllAre, IsSpot, TokenWritten, Refilled;
    assert HoldingAt(pin, files, v, w, k, k);
    var c, c' := files[p], Next(pin, files, w, k)[p];
    forall i, n: nat | 0 <= i < |pin.sites|
      ensures AtSpot(pin, i, p, origin, n) == AtSpot(pin, i, p, c', n)
    {
      assert AtSpot(pin, i, p, origin, n) == AtSpot(pin, i, p, c, n);
      assert HoldingAt(pin, files, v, w, k, i);
      if pin.sites[i].path == p {
        UnhideClear(pin, v, w);
        SiteStep(pin, files, v, w, k, i);
        ParallelSpots(pin, pin.sites[i].template, Tokens(pin, c), Tokens(pin, c'), n);
      }
    }
    if pin.sites[k].path == p {
      SwappedTokens(pin, pin.sites[k], c, v, w);
      SiteParts(pin, pin.sites[k]);
      SameLengths(pin, pin.sites[k].template, Tokens(pin, c), w);
    }
    forall n | 0 <= n < |Tokens(pin, origin)|
      ensures TokenWritten(pin, k + 1, p, origin, n, Tokens(pin, c')[n], w)
    {
      if pin.sites[k].path == p {
        SwapExactly(pin, pin.sites[k].template, Tokens(pin, c), w, n);
      }
      TokenStep(pin, k, p, origin, n, Tokens(pin, c)[n], Tokens(pin, c')[n], w);
    }
  }

  lemma UnhideClear(pin: Pin, v: string, w: string)
    requires Writable(pin, v, w)
    ensures Clear(pin, v) && Clear(pin, w)
  {
    hide Clear;
  }

  lemma SameLengths(pin: Pin, template: Template, tokens: seq<string>, w: string)
    ensures |SwapTokens(pin, template, tokens, w)| == |tokens|
  {
  }

  lemma TokenStep(pin: Pin, k: nat, p: string, origin: string, n: nat, token: string, next: string, w: string)
    requires ValidPin(pin) && pin.matches(w) && k < |pin.sites| && n < |Tokens(pin, origin)|
    requires TokenWritten(pin, k, p, origin, n, token, w)
    requires next == if AtSpot(pin, k, p, origin, n) then Refilled(pin, FrameOf(pin, pin.sites[k].template), token, w) else token
    ensures TokenWritten(pin, k + 1, p, origin, n, next, w)
  {
    hide Tokens, AtSpot, Refilled, FrameOf, ValidPin;
    if AtSpot(pin, k, p, origin, n) {
      forall i | 0 <= i < k && AtSpot(pin, i, p, origin, n)
        ensures
          var f, g, o := FrameOf(pin, pin.sites[i].template), FrameOf(pin, pin.sites[k].template), Tokens(pin, origin)[n];
          Refilled(pin, g, Refilled(pin, f, o, w), w) == Refilled(pin, g, o, w) == Refilled(pin, f, o, w)
      {
        TwoSites(pin, i, k, p, origin, n, w);
      }
    }
  }

  lemma TwoSites(pin: Pin, i: nat, k: nat, p: string, origin: string, n: nat, w: string)
    requires ValidPin(pin) && pin.matches(w) && i < |pin.sites| && k < |pin.sites| && n < |Tokens(pin, origin)|
    requires AtSpot(pin, i, p, origin, n) && AtSpot(pin, k, p, origin, n)
    ensures
      var f, g, o := FrameOf(pin, pin.sites[i].template), FrameOf(pin, pin.sites[k].template), Tokens(pin, origin)[n];
      Refilled(pin, g, Refilled(pin, f, o, w), w) == Refilled(pin, g, o, w) == Refilled(pin, f, o, w)
  {
    hide Tokens, IsSpot, Refilled, FrameOf, ValidPattern, Compatible, ValidTemplate, Cut;
    SpotInside(pin, pin.sites[i].template, Tokens(pin, origin), n);
    SpotInside(pin, pin.sites[k].template, Tokens(pin, origin), n);
    WrittenOnce(pin, FrameOf(pin, pin.sites[i].template), FrameOf(pin, pin.sites[k].template), Tokens(pin, origin)[n], w);
  }

  lemma {:induction false} WritesFrom(pin: Pin, files: Files, v: string, w: string, k: nat, p: string, origin: string)
    requires Writable(pin, v, w) && k <= |pin.sites| && Holding(pin, files, v, w, k) && p in files
    requires WrittenUpTo(pin, k, p, origin, files[p], w) && SameSpots(pin, p, origin, files[p])
    ensures
      var after := WriteSites(files, pin, pin.sites[k..], w);
      p in after && WrittenUpTo(pin, |pin.sites|, p, origin, after[p], w)
    decreases |pin.sites| - k
  {
    hide Holding, Writable, Swapped, WrittenUpTo, SameSpots, Next;
    if k < |pin.sites| {
      StepHolds(pin, files, v, w, k);
      StepWrites(pin, files, v, w, k, p, origin);
      WriteUnfolds(pin, files, w, k);
      WritesFrom(pin, Next(pin, files, w, k), v, w, k + 1, p, origin);
    }
  }

  /** A whole write changes the matched values and no other text, even when sites share a file. */
  lemma OnlySpansChange(pin: Pin, files: Files, v: string, w: string, p: string)
    requires Writable(pin, v, w) && ReadSites(files, pin, pin.sites) == Ok({v}) && p in files
    ensures
      var after := WriteSites(files, pin, pin.sites, w);
      p in after && WrittenUpTo(pin, |pin.sites|, p, files[p], after[p], w)
  {
    hide Holding, Writable, Swapped, Tokens, IsSpot;
    assert pin.sites[0..] == pin.sites;
    ReadHolds(pin, files, v, w);
    WritesFrom(pin, files, v, w, 0, p, files[p]);
  }

  // ------------------------------------------------------------ the paths reported

  lemma ShowsOnce(pin: Pin, f: Frame, g: Frame, t: string, v: string, w: string)
    requires ValidPattern(pin) && Compatible(pin, f, g) && pin.matches(w) && Shows(pin, f, w, t) && Shows(pin, g, v, t)
    ensures v == w
  {
    hide ValidPattern, Compatible, Cut;
    CutMoved(pin, f, g, t, w);
  }

  lemma StepMoves(pin: Pin, files: Files, v: string, w: string, k: nat, p: string)
    requires Writable(pin, v, w) && k < |pin.sites| && Holding(pin, files, v, w, k) && p in files
    ensures pin.sites[k].path in files && p in Next(pin, files, w, k)
    ensures
      var f := FrameOf(pin, pin.sites[k].template);
      Moved(pin, f, Tokens(pin, files[p]), Tokens(pin, Next(pin, files, w, k)[p]), v, w)
  {
    hide Found, Swapped, ValidSite, ValidPattern, FrameOf, Compatible, Clear, Tokens, AllAre, Among, Shows, Refilled;
    assert HoldingAt(pin, files, v, w, k, k);
    if pin.sites[k].path == p {
      SwappedTokens(pin, pin.sites[k], files[p], v, w);
    }
  }

  /** A run that shows the written value stays as it is. */
  lemma {:induction false} StaysWritten(pin: Pin, files: Files, v: string, w: string, k: nat, p: string, n: nat, m: nat)
    requires Writable(pin, v, w) && v != w && k <= |pin.sites| && Holding(pin, files, v, w, k) && p in files
    requires m < |pin.sites| && n < |Tokens(pin, files[p])|
    requires Shows(pin, FrameOf(pin, pin.sites[m].template), w, Tokens(pin, files[p])[n])
    ensures
      var after := WriteSites(files, pin, pin.sites[k..], w);
      p in after && |Tokens(pin, after[p])| == |Tokens(pin, files[p])| && Tokens(pin, after[p])[n] == Tokens(pin, files[p])[n]
    decreases |pin.sites| - k
  {
    hide Holding, Swapped, Next, Tokens, Shows, Refilled, FrameOf, Clear, ValidPattern, ValidSite, Compatible;
    if k < |pin.sites| {
      StepHolds(pin, files, v, w, k);
      StepMoves(pin, files, v, w, k, p);
      WriteUnfolds(pin, files, w, k);
      var f, g, t := FrameOf(pin, pin.sites[m].template), FrameOf(pin, pin.sites[k].template), Tokens(pin, files[p])[n];
      if Shows(pin, g, v, t) {
        ShowsOnce(pin, f, g, t, v, w);
      }
      StaysWritten(pin, Next(pin, files, w, k), v, w, k + 1, p, n, m);
    }
  }

  /** A file that a substitution changed is different in the end: no later one changes it back. */
  lemma ChangeStays(pin: Pin, files: Files, v: string, w: string, k: nat, p: string)
    requires Writable(pin, v, w) && k < |pin.sites| && Holding(pin, files, v, w, k) && p in files
    requires pin.sites[k].path in files && p in Next(pin, files, w, k) && Next(pin, files, w, k)[p] != files[p]
    ensures
      var after := WriteSites(files, pin, pin.sites[k..], w);
      p in after && after[p] != files[p]
  {
    hide Holding, Swapped, Next, Tokens, Shows, Refilled, FrameOf, Clear, ValidPattern, ValidSite, Compatible;
    var next := Next(pin, files, w, k);
    StepHolds(pin, files, v, w, k);
    StepMoves(pin, files, v, w, k, p);
    WriteUnfolds(pin, files, w, k);
    TokensFlatten(pin, files[p]);
    TokensFlatten(pin, next[p]);
    var a, b, f := Tokens(pin, files[p]), Tokens(pin, next[p]), FrameOf(pin, pin.sites[k].template);
    assert a != b;
    var n :| 0 <= n < |a| && a[n] != b[n];
    ShowsAfter(pin, f, a[n], v, w);
    StaysWritten(pin, next, v, w, k + 1, p, n, k);
  }

  lemma ShowsAfter(pin: Pin, f: Frame, t: string, v: string, w: string)
    requires ValidPattern(pin) && pin.matches(w) && Shows(pin, f, v, t) && Refilled(pin, f, t, w) != t
    ensures v != w && Shows(pin, f, w, Refilled(pin, f, t, w))
  {
    hide ValidPattern;
    RefilledShows(pin, f, t, w);
    if v == w {
      RefilledSame(pin, f, t, w);
    }
  }

  /** The paths a write reports are those of the files whose text it changed. */
  lemma {:induction false} ReportedFrom(pin: Pin, files: Files, v: string, w: string, k: nat, p: string)
    requires Writable(pin, v, w) && k <= |pin.sites| && Holding(pin, files, v, w, k) && p in files
    ensures
      var after := WriteSites(files, pin, pin.sites[k..], w);
      p in after && (p in ChangedPaths(files, pin, pin.sites[k..], w) <==> after[p] != files[p])
    decreases |pin.sites| - k
  {
    hide Holding, Swapped, Writable;
    if k < |pin.sites| {
      StepHolds(pin, files, v, w, k);
      WriteUnfolds(pin, files, w, k);
      var next := Next(pin, files, w, k);
      ReportedFrom(pin, next, v, w, k + 1, p);
      if next[p] != files[p] {
        ChangeStays(pin, files, v, w, k, p);
      } else if pin.sites[k].path == p {
        assert next == files;
      }
    }
  }

  lemma ReportedIffChanged(pin: Pin, files: Files, v: string, w: string, p: string)
    requires Writable(pin, v, w) && ReadSites(files, pin, pin.sites) == Ok({v}) && p in files
    ensures
      var after := WriteSites(files, pin, pin.sites, w);
      p in after && (p in ChangedPaths(files, pin, pin.sites, w) <==> after[p] != files[p])
  {
    hide Holding, Swapped, Writable, ReadSites;
    assert pin.sites[0..] == pin.sites;
    ReadHolds(pin, files, v, w);
    ReportedFrom(pin, files, v, w, 0, p);
  }

  /** The round trip through the methods: a write that succeeds, a read of the same pin, and
      a second write of the same value. */
  method WriteReadWrite(tree: Tree, pin: Pin, value: string)
    returns (first: Result<set<string>>, back: Result<string>, second: Result<set<string>>)
    requires ValidPin(pin)
    modifies tree
    ensures first.Err? ==> tree.files == old(tree.files)
    ensures first.Ok? && Clear(pin, value) && (forall v :: ReadSites(old(tree.files), pin, pin.sites) == Ok({v}) ==> Clear(pin, v)) ==>
      && back == Ok(value)
      && second == Ok({})
      && ReadsAs(tree.files, pin, pin.sites, value)
      && tree.files.Keys == old(tree.files).Keys
      && (forall p :: p in tree.files ==>
            WrittenUpTo(pin, |pin.sites|, p, old(tree.files)[p], tree.files[p], value))
      && (forall p :: p in tree.files ==> (p in first.value <==> tree.files[p] != old(tree.files)[p]))
  {
    hide Clear, ValidPin, ReadsAs, WrittenUpTo, Found, Swapped;
    back, second := Err(BadValue), Err(BadValue);
    first := tree.WritePin(pin, value);
    if first.Ok? {
      ghost var v :| ReadSites(old(tree.files), pin, pin.sites) == Ok({v});
      if Clear(pin, value) && Clear(pin, v) {
        WriteThenRead(pin, old(tree.files), v, value);
        forall p | p in old(tree.files)
          ensures p in tree.files && WrittenUpTo(pin, |pin.sites|, p, old(tree.files)[p], tree.files[p], value)
          ensures p in first.value <==> tree.files[p] != old(tree.files)[p]
        {
          OnlySpansChange(pin, old(tree.files), v, value, p);
          ReportedIffChanged(pin, old(tree.files), v, value, p);
        }
      }
      ghost var good := Clear(pin, value) && Clear(pin, v);
      assert value in {value};
      ghost var now := tree.files;
      back := tree.ReadPin(pin);
      if back.Ok? {
        assert back.value in {back.value};
      }
      if good {
        SettledReportsNothing(pin, now, pin.sites, value);
      }
      second := tree.WritePin(pin, value);
    }
  }
}
