/**
 The pin registry of scripts/client_drift.py: reading one value at every site that copies
 it, and writing a new one there.

 A site's template is literal text with gaps: one for the value, and any number that stand
 for a run of characters up to a quote or newline, or for a run of blanks. `Fit` is the
 regular expression built from it, matched at the front of a text with backtracking.
 */
module Pins {
  import opened Options
  import opened Text

  /** `<<V>>`, `<<X>>` and `<<S>>`. */
  datatype Gap = Value | Any | Space

  /** `re.split` on the gaps: literals, possibly empty, with one gap between two of them. */
  datatype Template = End(text: string) | Piece(text: string, gap: Gap, rest: Template)

  datatype Site = Site(path: string, template: Template, count: nat)

  /** `matches` is the value pattern. The other two describe it: the characters its values
      are made of, and their length if they all have the same. */
  datatype Pin = Pin(inClass: char -> bool, matches: string -> bool, length: Option<nat>, sites: seq<Site>)

  datatype PinError = MissingFile(path: string) | WrongCount(path: string) | SitesDisagree | BadValue
  datatype Result<+T> = Ok(value: T) | Err(error: PinError)

  // ------------------------------------------------------------ matching text

  predicate Blank(c: char) {
    c == ' ' || c == '\t'
  }

  predicate Quoting(c: char) {
    c == '"' || c == '\n'
  }

  /** Whether a text can stand in a gap. */
  predicate InGap(pin: Pin, gap: Gap, s: string) {
    match gap
    case Value => pin.matches(s)
    case Any => forall i :: 0 <= i < |s| ==> !Quoting(s[i])
    case Space => s != "" && forall i :: 0 <= i < |s| ==> Blank(s[i])
  }

  /** A match: where the value is, and where the match ends. */
  datatype Hit = Hit(from: nat, to: nat, end: nat)

  function Shifted(h: Hit, n: nat): Hit {
    Hit(h.from + n, h.to + n, h.end + n)
  }

  /** The template matched at the front of s. */
  function Fit(pin: Pin, template: Template, s: string): Option<Hit>
    decreases template, 0
  {
    if !(template.text <= s) then None
    else
      var n := |template.text|;
      match template
      case End(_) => Some(Hit(n, n, n))
      case Piece(_, gap, rest) =>
        match FitGap(pin, gap, rest, s[n..], |s| - n)
        case None => None
        case Some(h) => Some(Shifted(h, n))
  }

  /** A gap of at most n characters and the template after it: the longest gap that lets the
      rest match. */
  function FitGap(pin: Pin, gap: Gap, rest: Template, s: string, n: nat): Option<Hit>
    requires n <= |s|
    decreases rest, n + 1
  {
    if InGap(pin, gap, s[..n]) && Fit(pin, rest, s[n..]).Some? then
      var h := Shifted(Fit(pin, rest, s[n..]).value, n);
      Some(if gap.Value? then Hit(0, n, h.end) else h)
    else if n == 0 then None
    else FitGap(pin, gap, rest, s, n - 1)
  }

  lemma {:induction false} FitInside(pin: Pin, template: Template, s: string)
    ensures
      var f := Fit(pin, template, s);
      f.Some? ==> f.value.from <= f.value.to <= f.value.end <= |s|
    decreases template, 0
  {
    if template.Piece? && template.text <= s {
      var rest := s[|template.text|..];
      GapInside(pin, template.gap, template.rest, rest, |rest|);
    }
  }

  lemma {:induction false} GapInside(pin: Pin, gap: Gap, rest: Template, s: string, n: nat)
    requires n <= |s|
    ensures
      var f := FitGap(pin, gap, rest, s, n);
      f.Some? ==> f.value.from <= f.value.to <= f.value.end <= |s|
    decreases rest, n + 1
  {
    FitInside(pin, rest, s[n..]);
    if n > 0 {
      GapInside(pin, gap, rest, s, n - 1);
    }
  }

  /** `finditer`: the values of the leftmost non-overlapping matches. */
  function Found(pin: Pin, site: Site, s: string): seq<string>
    decreases |s|
  {
    FitInside(pin, site.template, s);
    if s == "" then []
    else
      match Fit(pin, site.template, s)
      case None => Found(pin, site, s[1..])
      case Some(h) => [s[h.from..h.to]] + (if h.end > 0 then Found(pin, site, s[h.end..]) else [])
  }

  /** `sub(swap)`: the same matches with their values replaced. */
  function Swapped(pin: Pin, site: Site, s: string, value: string): string
    decreases |s|
  {
    FitInside(pin, site.template, s);
    if s == "" then ""
    else
      match Fit(pin, site.template, s)
      case None => [s[0]] + Swapped(pin, site, s[1..], value)
      case Some(h) =>
        s[..h.from] + value + s[h.to..h.end]
        + (if h.end > 0 then Swapped(pin, site, s[h.end..], value) else s)
  }

  // ------------------------------------------------------------ reading and writing

  type Files = map<string, string>

  function Elements(values: seq<string>): set<string> {
    set v | v in values
  }

  /** The values found at the sites, in the order the errors would be raised. */
  function ReadSites(files: Files, pin: Pin, sites: seq<Site>): Result<set<string>> {
    if sites == [] then Ok({})
    else
      var site := sites[0];
      if site.path !in files then Err(MissingFile(site.path))
      else
        var found := Found(pin, site, files[site.path]);
        if |found| != site.count then Err(WrongCount(site.path))
        else
          match ReadSites(files, pin, sites[1..])
          case Err(e) => Err(e)
          case Ok(more) => Ok(Elements(found) + more)
  }

  function WriteSites(files: Files, pin: Pin, sites: seq<Site>, value: string): Files {
    if sites == [] then files
    else
      var site := sites[0];
      if site.path !in files then files
      else WriteSites(files[site.path := Swapped(pin, site, files[site.path], value)], pin, sites[1..], value)
  }

  /** The files that some substitution of the write changes. */
  function ChangedPaths(files: Files, pin: Pin, sites: seq<Site>, value: string): set<string> {
    if sites == [] || sites[0].path !in files then {}
    else
      var site := sites[0];
      var updated := Swapped(pin, site, files[site.path], value);
      (if updated != files[site.path] then {site.path} else {})
      + ChangedPaths(files[site.path := updated], pin, sites[1..], value)
  }

  /** Every site has the count of matches it declares, and each match holds `value`. */
  ghost predicate ReadsAs(files: Files, pin: Pin, sites: seq<Site>, value: string) {
    forall i :: 0 <= i < |sites| ==>
      && sites[i].path in files
      && |Found(pin, sites[i], files[sites[i].path])| == sites[i].count
      && forall v :: v in Found(pin, sites[i], files[sites[i].path]) ==> v == value
  }

  /** Writing `value` at any one site would leave its file as it is. */
  ghost predicate Settled(files: Files, pin: Pin, value: string) {
    forall i :: 0 <= i < |pin.sites| && pin.sites[i].path in files ==>
      Swapped(pin, pin.sites[i], files[pin.sites[i].path], value) == files[pin.sites[i].path]
  }

  /** A source tree. */
  class Tree {
    var files: Files

    constructor (files: Files)
      ensures this.files == files
    {
      this.files := files;
    }

    /** `read_pin`. */
    method ReadPin(pin: Pin) returns (r: Result<string>)
      ensures r.Ok? ==> ReadSites(files, pin, pin.sites) == Ok({r.value})
      ensures ReadSites(files, pin, pin.sites).Err? ==> r == Err(ReadSites(files, pin, pin.sites).error)
      ensures (exists v :: ReadSites(files, pin, pin.sites) == Ok({v})) ==> r.Ok?
      ensures r.Err? && ReadSites(files, pin, pin.sites).Ok? ==> r == Err(SitesDisagree)
    {
      var values: set<string> := {};
      var i := 0;
      assert forall more: set<string> :: values + more == more;
      while i < |pin.sites|
        invariant 0 <= i <= |pin.sites|
        invariant match ReadSites(files, pin, pin.sites[i..])
                  case Err(e) => ReadSites(files, pin, pin.sites) == Err(e)
                  case Ok(more) => ReadSites(files, pin, pin.sites) == Ok(values + more)
      {
        var site := pin.sites[i];
        assert pin.sites[i..][1..] == pin.sites[i + 1..];
        if site.path !in files {
          return Err(MissingFile(site.path));
        }
        var found := Found(pin, site, files[site.path]);
        if |found| != site.count {
          return Err(WrongCount(site.path));
        }
        ghost var before := values;
        values := values + Elements(found);
        assert forall more: set<string> :: before + (Elements(found) + more) == values + more;
        i := i + 1;
      }
      assert values + {} == values;
      if |values| != 1 {
        NotOne(values);
        return Err(SitesDisagree);
      }
      var v :| v in values;
      TheOne(values, v);
      r := Ok(v);
    }

    /** `write_pin`. A refusal leaves every file as it was; a success rewrites each site in turn
        and reports the files that changed. */
    method WritePin(pin: Pin, value: string) returns (r: Result<set<string>>)
      modifies this
      ensures r.Err? ==> files == old(files)
      ensures !pin.matches(value) ==> r == Err(BadValue)
      ensures r.Ok? <==> pin.matches(value) && exists v :: ReadSites(old(files), pin, pin.sites) == Ok({v})
      ensures r.Ok? ==> files == WriteSites(old(files), pin, pin.sites, value)
      ensures r.Ok? ==> r.value == ChangedPaths(old(files), pin, pin.sites, value)
    {
      if !pin.matches(value) {
        return Err(BadValue);
      }
      var current := ReadPin(pin);
      if current.Err? {
        return Err(current.error);
      }
      var changed: set<string> := {};
      var i := 0;
      ghost var target := WriteSites(files, pin, pin.sites, value);
      ghost var paths := ChangedPaths(files, pin, pin.sites, value);
      assert {} + paths == paths;
      while i < |pin.sites|
        invariant 0 <= i <= |pin.sites|
        invariant files.Keys == old(files).Keys
        invariant ReadSites(old(files), pin, pin.sites).Ok?
        invariant WriteSites(files, pin, pin.sites[i..], value) == target
        invariant changed + ChangedPaths(files, pin, pin.sites[i..], value) == paths
      {
        hide Swapped, Found, WriteSites, ChangedPaths, ReadSites;
        var site := pin.sites[i];
        SitesExist(old(files), pin, pin.sites, i);
        OneSite(files, pin, pin.sites[i..], value, changed);
        assert pin.sites[i..][1..] == pin.sites[i + 1..];
        var updated := Swapped(pin, site, files[site.path], value);
        if updated != files[site.path] {
          changed := changed + {site.path};
        }
        files := files[site.path := updated];
        i := i + 1;
      }
      r := Ok(changed);
    }
  }

  /** One round of the writing loop, as the specification takes it. */
  lemma OneSite(files: Files, pin: Pin, sites: seq<Site>, value: string, changed: set<string>)
    requires sites != [] && sites[0].path in files
    ensures
      var path := sites[0].path;
      var updated := Swapped(pin, sites[0], files[path], value);
      var next := files[path := updated];
      && WriteSites(files, pin, sites, value) == WriteSites(next, pin, sites[1..], value)
      && changed + ChangedPaths(files, pin, sites, value)
         == (if updated != files[path] then changed + {path} else changed) + ChangedPaths(next, pin, sites[1..], value)
  {
    hide Swapped;
    var path := sites[0].path;
    var updated := Swapped(pin, sites[0], files[path], value);
    var more := ChangedPaths(files[path := updated], pin, sites[1..], value);
    assert changed + ({path} + more) == (changed + {path}) + more;
    assert changed + ({} + more) == changed + more;
  }

  lemma NotOne(values: set<string>)
    requires |values| != 1
    ensures forall v :: values != {v}
  {
    assert forall v: string :: |{v}| == 1;
  }

  lemma TheOne(values: set<string>, v: string)
    requires |values| == 1 && v in values
    ensures values == {v}
  {
    assert |values - {v}| == 0;
  }

  lemma {:induction false} SitesExist(files: Files, pin: Pin, sites: seq<Site>, i: nat)
    requires ReadSites(files, pin, sites).Ok? && i < |sites|
    ensures sites[i].path in files && |Found(pin, sites[i], files[sites[i].path])| == sites[i].count
    ensures forall v :: v in Found(pin, sites[i], files[sites[i].path]) ==> v in ReadSites(files, pin, sites).value
  {
    if i > 0 {
      SitesExist(files, pin, sites[1..], i - 1);
    }
  }
}
