/**
 Two checks of header order, written separately, that have to agree: `compare_order` of
 scripts/diff_claude_code_identity.py and the shared-order check of `compare_records`
 in scripts/client_drift.py.
 */
module HeaderOrder {
  import opened Options

  datatype Record = Record(httpVersion: Option<string>, headers: seq<(string, string)>)

  /** The first difference: its position, and what each side writes there. */
  datatype Drift = Drift(at: nat, want: Option<string>, got: Option<string>)

  /** The lowercased header names in order; `lower` is `str.lower`. */
  function Names(r: Record, lower: string -> string): (names: seq<string>)
    ensures |names| == |r.headers| && forall i :: 0 <= i < |names| ==> names[i] == lower(r.headers[i].0)
  {
    seq(|r.headers|, (i: int) requires 0 <= i < |r.headers| => lower(r.headers[i].0))
  }

  /** `[name for name in names if name in shared]`. */
  function Keep(names: seq<string>, shared: set<string>): seq<string> {
    if names == [] then []
    else (if names[0] in shared then [names[0]] else []) + Keep(names[1..], shared)
  }

  /** `[name for name in names if name in others]`, over a list. */
  function KeepListed(names: seq<string>, others: seq<string>): seq<string> {
    if names == [] then []
    else (if names[0] in others then [names[0]] else []) + KeepListed(names[1..], others)
  }

  function Elements(names: seq<string>): set<string> {
    set n | n in names
  }

  /** The first position at which the two lists differ, or where the shorter one ends. */
  function FirstDifference(a: seq<string>, b: seq<string>): nat {
    if a == [] || b == [] || a[0] != b[0] then 0 else 1 + FirstDifference(a[1..], b[1..])
  }

  function Entry(names: seq<string>, i: nat): Option<string> {
    if i < |names| then Some(names[i]) else None
  }

  /** `compare_order`. */
  function CompareOrder(baseline: Record, observed: Record, lower: string -> string): Option<Drift> {
    if baseline.httpVersion != observed.httpVersion then None
    else
      var base, seen := Names(baseline, lower), Names(observed, lower);
      var shared := Elements(base) * Elements(seen);
      var a, b := Keep(base, shared), Keep(seen, shared);
      if a == b then None
      else
        var at := FirstDifference(a, b);
        Some(Drift(at, Entry(a, at), Entry(b, at)))
  }

  /** The order check inside `compare_records`; it does not look at the HTTP version. */
  predicate SameSharedOrder(base: Record, seen: Record, lower: string -> string) {
    var baseNames, seenNames := Names(base, lower), Names(seen, lower);
    KeepListed(baseNames, seenNames) == KeepListed(seenNames, baseNames)
  }

  // ------------------------------------------------------------ agreement

  lemma {:induction false} KeepIsKeepListed(names: seq<string>, all: seq<string>, others: seq<string>)
    requires forall n :: n in names ==> n in all
    ensures Keep(names, Elements(all) * Elements(others)) == KeepListed(names, others)
  {
    if names != [] {
      assert names[0] in all;
      KeepIsKeepListed(names[1..], all, others);
    }
  }

  lemma SharedIsSymmetric(a: seq<string>, b: seq<string>)
    ensures Elements(a) * Elements(b) == Elements(b) * Elements(a)
  {
  }

  /** With one HTTP version the two checks accept the same pairs. */
  lemma ChecksAgree(base: Record, seen: Record, lower: string -> string)
    requires base.httpVersion == seen.httpVersion
    ensures CompareOrder(base, seen, lower).None? <==> SameSharedOrder(base, seen, lower)
  {
    var a, b := Names(base, lower), Names(seen, lower);
    KeepIsKeepListed(a, a, b);
    KeepIsKeepListed(b, b, a);
    SharedIsSymmetric(a, b);
  }

  /** Which record is the baseline does not matter. */
  lemma AcceptanceIsSymmetric(base: Record, seen: Record, lower: string -> string)
    ensures CompareOrder(base, seen, lower).None? <==> CompareOrder(seen, base, lower).None?
  {
    SharedIsSymmetric(Names(base, lower), Names(seen, lower));
  }

  lemma {:induction false} FirstDifferenceIsFirst(a: seq<string>, b: seq<string>)
    requires a != b
    ensures
      var at := FirstDifference(a, b);
      at <= |a| && at <= |b| && a[..at] == b[..at] && Entry(a, at) != Entry(b, at)
  {
    if a != [] && b != [] && a[0] == b[0] {
      assert a == [a[0]] + a[1..] && b == [b[0]] + b[1..];
      FirstDifferenceIsFirst(a[1..], b[1..]);
      var at := FirstDifference(a[1..], b[1..]);
      assert a[..at + 1] == [a[0]] + a[1..][..at];
      assert b[..at + 1] == [b[0]] + b[1..][..at];
    }
  }

  /** A reported drift names the first position at which the shared headers differ. */
  lemma DriftIsFirst(base: Record, seen: Record, lower: string -> string)
    requires CompareOrder(base, seen, lower).Some?
    ensures
      var a, b := Names(base, lower), Names(seen, lower);
      var s, t := KeepListed(a, b), KeepListed(b, a);
      var d := CompareOrder(base, seen, lower).value;
      && d.at <= |s| && d.at <= |t| && s[..d.at] == t[..d.at]
      && d.want == Entry(s, d.at) && d.got == Entry(t, d.at) && d.want != d.got
  {
    var a, b := Names(base, lower), Names(seen, lower);
    KeepIsKeepListed(a, a, b);
    KeepIsKeepListed(b, b, a);
    SharedIsSymmetric(a, b);
    FirstDifferenceIsFirst(KeepListed(a, b), KeepListed(b, a));
  }

  // ------------------------------------------------------------ what order means

  ghost predicate Distinct(names: seq<string>) {
    forall i, j :: 0 <= i < j < |names| ==> names[i] != names[j]
  }

  /** x comes before y in names. */
  ghost predicate Before(names: seq<string>, x: string, y: string) {
    exists i, j :: 0 <= i < j < |names| && names[i] == x && names[j] == y
  }

  /** Some two names come in opposite orders. */
  ghost predicate Opposed(a: seq<string>, b: seq<string>) {
    exists x, y :: x != y && Before(a, x, y) && Before(b, y, x)
  }

  lemma {:induction false} KeepContains(names: seq<string>, shared: set<string>)
    ensures forall n :: n in Keep(names, shared) <==> n in names && n in shared
    ensures Distinct(names) ==> Distinct(Keep(names, shared))
  {
    if names != [] {
      KeepContains(names[1..], shared);
      var more := Keep(names[1..], shared);
      assert Distinct(names) ==> Distinct(names[1..]);
      if names[0] in shared && Distinct(names) {
        assert names[0] !in names[1..];
        assert forall i :: 0 <= i < |more| ==> more[i] in names[1..];
      }
    }
  }

  /** Keeping a subsequence keeps which of two kept names comes first. */
  lemma {:induction false} KeepKeepsOrder(names: seq<string>, shared: set<string>, x: string, y: string)
    requires x in shared && y in shared
    ensures Before(Keep(names, shared), x, y) <==> Before(names, x, y)
  {
    if names != [] {
      KeepKeepsOrder(names[1..], shared, x, y);
      KeepContains(names[1..], shared);
      BeforeStep(names, x, y);
      if names[0] in shared {
        BeforeStep(Keep(names, shared), x, y);
        assert Keep(names, shared)[1..] == Keep(names[1..], shared);
      } else {
        assert Keep(names, shared) == Keep(names[1..], shared);
      }
    }
  }

  lemma BeforeStep(names: seq<string>, x: string, y: string)
    requires names != []
    ensures Before(names, x, y) <==> (names[0] == x && y in names[1..]) || Before(names[1..], x, y)
  {
    if i, j :| 0 <= i < j < |names| && names[i] == x && names[j] == y {
      if i > 0 {
        assert names[1..][i - 1] == x && names[1..][j - 1] == y;
      } else {
        assert names[1..][j - 1] == y;
      }
    }
    if names[0] == x && y in names[1..] {
      var j :| 0 <= j < |names[1..]| && names[1..][j] == y;
      assert names[0] == x && names[j + 1] == y;
    }
    if i, j :| 0 <= i < j < |names[1..]| && names[1..][i] == x && names[1..][j] == y {
      assert names[i + 1] == x && names[j + 1] == y;
    }
  }

  /** Two arrangements of the same distinct names are equal exactly when no two names come in
      opposite orders. */
  lemma {:induction false} ArrangementsAgree(a: seq<string>, b: seq<string>)
    requires Distinct(a) && Distinct(b) && forall n :: n in a <==> n in b
    ensures a == b <==> !Opposed(a, b)
  {
    if !Opposed(a, b) {
      UnopposedAreEqual(a, b);
    }
  }

  lemma {:induction false} UnopposedAreEqual(a: seq<string>, b: seq<string>)
    requires Distinct(a) && Distinct(b) && (forall n :: n in a <==> n in b) && !Opposed(a, b)
    ensures a == b
  {
    if a == [] {
      NothingIn(b);
    } else {
      assert a[0] in b;
      assert b[0] in a;
      if a[0] != b[0] {
        OpposedHeads(a, b);
      }
      SameWithoutHead(a, b);
      UnopposedAreEqual(a[1..], b[1..]);
      assert a == [a[0]] + a[1..] && b == [b[0]] + b[1..];
    }
  }

  lemma NothingIn(b: seq<string>)
    ensures (forall n :: n !in b) ==> b == []
  {
    if b != [] {
      assert b[0] in b;
    }
  }

  lemma OpposedHeads(a: seq<string>, b: seq<string>)
    requires a != [] && b != [] && a[0] != b[0] && a[0] in b && b[0] in a
    ensures Opposed(a, b)
  {
    var i :| 0 <= i < |a| && a[i] == b[0];
    var j :| 0 <= j < |b| && b[j] == a[0];
    assert Before(a, a[0], b[0]);
    assert Before(b, b[0], a[0]);
  }

  lemma SameWithoutHead(a: seq<string>, b: seq<string>)
    requires a != [] && b != [] && a[0] == b[0]
    requires Distinct(a) && Distinct(b) && (forall n :: n in a <==> n in b) && !Opposed(a, b)
    ensures Distinct(a[1..]) && Distinct(b[1..]) && (forall n :: n in a[1..] <==> n in b[1..]) && !Opposed(a[1..], b[1..])
  {
    assert a == [a[0]] + a[1..] && b == [b[0]] + b[1..];
    assert a[0] !in a[1..] && b[0] !in b[1..];
    forall n
      ensures n in a[1..] <==> n in b[1..]
    {
      assert n in a <==> n == a[0] || n in a[1..];
      assert n in b <==> n == b[0] || n in b[1..];
    }
    if Opposed(a[1..], b[1..]) {
      var x, y :| x != y && Before(a[1..], x, y) && Before(b[1..], y, x);
      BeforeStep(a, x, y);
      BeforeStep(b, y, x);
      assert Opposed(a, b);
    }
  }

  /** For header lists without duplicates, the order is accepted exactly when no two names
      both requests carry come in opposite orders. */
  lemma AcceptedIffUnopposed(base: Record, seen: Record, lower: string -> string)
    requires base.httpVersion == seen.httpVersion
    requires Distinct(Names(base, lower)) && Distinct(Names(seen, lower))
    ensures CompareOrder(base, seen, lower).None? <==> !Opposed(Names(base, lower), Names(seen, lower))
  {
    hide Distinct, Before, Keep;
    var a, b := Names(base, lower), Names(seen, lower);
    var shared := Elements(a) * Elements(b);
    var s, t := Keep(a, shared), Keep(b, shared);
    KeepContains(a, shared);
    KeepContains(b, shared);
    ArrangementsAgree(s, t);
    if x, y :| x != y && Before(s, x, y) && Before(t, y, x) {
      BeforeMembers(s, x, y);
      KeepKeepsOrder(a, shared, x, y);
      KeepKeepsOrder(b, shared, y, x);
      assert Opposed(a, b);
    }
    if x, y :| x != y && Before(a, x, y) && Before(b, y, x) {
      BeforeMembers(a, x, y);
      BeforeMembers(b, y, x);
      KeepKeepsOrder(a, shared, x, y);
      KeepKeepsOrder(b, shared, y, x);
      assert Opposed(s, t);
    }
  }

  lemma BeforeMembers(names: seq<string>, x: string, y: string)
    requires Before(names, x, y)
    ensures x in names && y in names
  {
  }

  /** The letter case of header names does not count, nor do values, nor headers only one side
      sends: the order is the same whenever the shared names are, lowercased. */
  lemma CaseAndExtrasDoNotCount(base: Record, seen: Record, lower: string -> string)
    requires |base.headers| == |seen.headers|
    requires forall i :: 0 <= i < |base.headers| ==> lower(base.headers[i].0) == lower(seen.headers[i].0)
    ensures CompareOrder(base, seen, lower).None?
  {
    assert Names(base, lower) == Names(seen, lower);
  }

  /** Two headers sent in the other order are reported, under one HTTP version and not under two. */
  lemma ExchangedIsReported(a: (string, string), b: (string, string), v: Option<string>, w: Option<string>, lower: string -> string)
    requires lower(a.0) != lower(b.0)
    ensures
      var base, seen := Record(v, [a, b]), Record(w, [b, a]);
      CompareOrder(base, seen, lower) == if v == w then Some(Drift(0, Some(lower(a.0)), Some(lower(b.0)))) else None
  {
    var base, seen := Record(v, [a, b]), Record(w, [b, a]);
    var x, y := lower(a.0), lower(b.0);
    assert Names(base, lower) == [x, y] && Names(seen, lower) == [y, x];
    var shared := Elements([x, y]) * Elements([y, x]);
    assert x in [x, y] && y in [x, y] && x in [y, x] && y in [y, x];
    assert x in shared && y in shared;
    assert [x, y][1..] == [y] && [y, x][1..] == [x] && [y][1..] == [] && [x][1..] == [];
    assert Keep([y], shared) == [y] && Keep([x], shared) == [x];
    assert Keep([x, y], shared) == [x, y] && Keep([y, x], shared) == [y, x];
  }
}
