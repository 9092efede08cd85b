/**
 What the cloud-session probe keeps (scripts/mitm_cloud_session_probe.py): the skeleton
 of a JSON value and the masked form of a path.
 */
module Redaction {
  import opened Text

  // ------------------------------------------------------------ character runs

  predicate Lower(c: char) { 'a' <= c <= 'z' }
  predicate DigitChar(c: char) { '0' <= c <= '9' }
  predicate HexChar(c: char) { DigitChar(c) || 'a' <= c <= 'f' || 'A' <= c <= 'F' }
  predicate Alnum(c: char) { DigitChar(c) || Lower(c) || 'A' <= c <= 'Z' }
  predicate TokenChar(c: char) { Alnum(c) || c == '_' || c == '.' || c == '-' }

  predicate AllHex(s: string) { forall i :: 0 <= i < |s| ==> HexChar(s[i]) }
  predicate AllDigits(s: string) { forall i :: 0 <= i < |s| ==> DigitChar(s[i]) }
  predicate AllAlnum(s: string) { forall i :: 0 <= i < |s| ==> Alnum(s[i]) }
  predicate AllLower(s: string) { forall i :: 0 <= i < |s| ==> Lower(s[i]) }
  predicate AllToken(s: string) { forall i :: 0 <= i < |s| ==> TokenChar(s[i]) }

  /** `$` also matches before a final line feed. */
  function Body(s: string): string {
    if |s| > 0 && s[|s| - 1] == '\n' then s[..|s| - 1] else s
  }

  predicate IsUuid(s: string) {
    && |s| == 36
    && AllHex(s[..8]) && s[8] == '-' && AllHex(s[9..13]) && s[13] == '-' && AllHex(s[14..18]) && s[18] == '-'
    && AllHex(s[19..23]) && s[23] == '-' && AllHex(s[24..])
  }

  function IndexOf(s: string, c: char): (i: nat)
    ensures i <= |s| && (forall j :: 0 <= j < i ==> s[j] != c) && (i < |s| ==> s[i] == c)
  {
    if s == "" || s[0] == c then 0 else 1 + IndexOf(s[1..], c)
  }

  /** ([a-z]{2,12})_[0-9A-Za-z]{10,}: the prefix ends at the first underscore. */
  predicate IsPrefixed(s: string) {
    var u := IndexOf(s, '_');
    2 <= u <= 12 && u < |s| && AllLower(s[..u]) && |s| - u - 1 >= 10 && AllAlnum(s[u + 1..])
  }

  predicate IsHex(s: string) { |s| >= 16 && AllHex(s) }
  predicate IsDigits(s: string) { |s| >= 6 && AllDigits(s) }
  predicate IsToken(s: string) { 1 <= |s| <= 40 && AllToken(s) }

  /** `looks_like_id`. */
  predicate LooksLikeId(value: string) {
    var s := Body(value);
    IsUuid(s) || IsPrefixed(s) || IsHex(s) || IsDigits(s)
  }

  // strings in the order Python sorts them

  predicate Leq(a: string, b: string) {
    a == "" || (b != "" && (a[0] < b[0] || (a[0] == b[0] && Leq(a[1..], b[1..]))))
  }

  lemma {:induction false} LeqTotal(a: string, b: string)
    ensures Leq(a, b) || Leq(b, a)
    ensures Leq(a, b) && Leq(b, a) ==> a == b
  {
    if a != "" && b != "" && a[0] == b[0] {
      LeqTotal(a[1..], b[1..]);
      assert a == [a[0]] + a[1..] && b == [b[0]] + b[1..];
    }
  }

  lemma {:induction false} LeqTransitive(a: string, b: string, c: string)
    requires Leq(a, b) && Leq(b, c)
    ensures Leq(a, c)
  {
    if a != "" && b != "" && c != "" && a[0] == b[0] == c[0] {
      LeqTransitive(a[1..], b[1..], c[1..]);
    }
  }

  predicate SortedKeys(keys: seq<string>) {
    |keys| >= 2 ==> Leq(keys[0], keys[1]) && keys[0] != keys[1] && SortedKeys(keys[1..])
  }

  function InsertKey(k: string, keys: seq<string>): seq<string> {
    if keys == [] then [k]
    else if Leq(k, keys[0]) then [k] + keys
    else [keys[0]] + InsertKey(k, keys[1..])
  }

  function SortKeys(keys: seq<string>): seq<string> {
    if keys == [] then [] else InsertKey(keys[0], SortKeys(keys[1..]))
  }

  lemma {:induction false} InsertKeySorts(k: string, keys: seq<string>)
    requires SortedKeys(keys) && k !in keys
    ensures SortedKeys(InsertKey(k, keys))
    ensures forall x :: x in InsertKey(k, keys) <==> x == k || x in keys
    ensures InsertKey(k, keys)[0] == k || (keys != [] && InsertKey(k, keys)[0] == keys[0])
  {
    if keys != [] {
      LeqTotal(k, keys[0]);
      if Leq(k, keys[0]) {
        assert ([k] + keys)[1..] == keys;
      } else {
        InsertKeySorts(k, keys[1..]);
        assert ([keys[0]] + InsertKey(k, keys[1..]))[1..] == InsertKey(k, keys[1..]);
      }
    }
  }

  // ------------------------------------------------------------ paths

  /** `mask_segment`. */
  function MaskSegment(seg: string): string {
    var s := Body(seg);
    if IsUuid(s) then "{uuid}"
    else if IsPrefixed(s) then s[..IndexOf(s, '_')] + "_{id}"
    else if IsHex(s) then "{hex}"
    else if IsDigits(s) then "{n}"
    else seg
  }

  const PROXY := "git_proxy"

  /** The masked segments; after a `git_proxy` segment each becomes {x}. */
  function MaskSegments(segs: seq<string>, maskedRest: bool): (out: seq<string>)
    ensures |out| == |segs|
  {
    if segs == [] then []
    else if maskedRest then ["{x}"] + MaskSegments(segs[1..], true)
    else [MaskSegment(segs[0])] + MaskSegments(segs[1..], segs[0] == PROXY)
  }

  /** `path.split(c)`. */
  function Split(s: string, c: char): (parts: seq<string>)
    ensures parts != []
    ensures forall p :: p in parts ==> Free(c, p)
    decreases |s|
  {
    var i := IndexOf(s, c);
    if i == |s| then [s] else [s[..i]] + Split(s[i + 1..], c)
  }

  /** `path.partition("?")[0]`. */
  function BeforeQuery(path: string): string {
    path[..IndexOf(path, '?')]
  }

  /** `path.partition("?")[2]`. */
  function Query(path: string): string {
    var i := IndexOf(path, '?');
    if i == |path| then "" else path[i + 1..]
  }

  /** `p.split("=", 1)[0]`. */
  function NameOf(part: string): string {
    part[..IndexOf(part, '=')]
  }

  /** `sorted({...})` over the names of the parts that are not empty. */
  function SortedNames(parts: seq<string>): seq<string> {
    if parts == [] then []
    else
      var more := SortedNames(parts[1..]);
      if parts[0] == "" || NameOf(parts[0]) in more then more else InsertKey(NameOf(parts[0]), more)
  }

  function QueryNames(path: string): seq<string> {
    SortedNames(Split(Query(path), '&'))
  }

  /** The names are in order, each once, and are those of the parts that are not empty: the
      values of a query do not show. */
  lemma {:induction false} NamesOfParts(parts: seq<string>)
    ensures SortedKeys(SortedNames(parts))
    ensures forall x :: x in SortedNames(parts) <==> exists i :: 0 <= i < |parts| && parts[i] != "" && NameOf(parts[i]) == x
  {
    hide InsertKey, NameOf, SortedKeys;
    if parts == [] {
      EmptyIsSorted();
    } else {
      NamesOfParts(parts[1..]);
      var more := SortedNames(parts[1..]);
      if parts[0] != "" && NameOf(parts[0]) !in more {
        InsertKeySorts(NameOf(parts[0]), more);
      }
      forall x
        ensures x in SortedNames(parts) <==> exists i :: 0 <= i < |parts| && parts[i] != "" && NameOf(parts[i]) == x
      {
        if i :| 0 <= i < |parts| && parts[i] != "" && NameOf(parts[i]) == x {
          if i > 0 {
            assert parts[1..][i - 1] == parts[i];
          }
        }
        if i :| 0 <= i < |parts[1..]| && parts[1..][i] != "" && NameOf(parts[1..][i]) == x {
          assert parts[i + 1] == parts[1..][i];
        }
      }
    }
  }

  lemma EmptyIsSorted()
    ensures SortedKeys([])
  {
  }

  function MaskedPath(path: string): string {
    Join('/', MaskSegments(Split(BeforeQuery(path), '/'), false))
  }

  /** `mask_path`: the masked path and the names of the query. */
  method MaskPath(path: string) returns (masked: string, names: seq<string>)
    ensures masked == MaskedPath(path)
    ensures names == QueryNames(path)
  {
    hide MaskSegment, Split, BeforeQuery, Join, IndexOf;
    var segs := Split(BeforeQuery(path), '/');
    var out: seq<string> := [];
    var maskedRest := false;
    var i := 0;
    while i < |segs|
      invariant 0 <= i <= |segs|
      invariant out + MaskSegments(segs[i..], maskedRest) == MaskSegments(segs, false)
    {
      assert segs[i..][1..] == segs[i + 1..];
      if maskedRest {
        out := out + ["{x}"];
      } else {
        out := out + [MaskSegment(segs[i])];
        if segs[i] == PROXY {
          maskedRest := true;
        }
      }
      i := i + 1;
    }
    assert out == MaskSegments(segs, false);
    masked := Join('/', out);
    names := QueryNames(path);
  }

  lemma MaskSegmentIdempotent(seg: string)
    ensures MaskSegment(MaskSegment(seg)) == MaskSegment(seg)
    ensures MaskSegment(seg) == PROXY <==> seg == PROXY
  {
    hide MaskSegment;
    MaskedEndsInBrace(seg);
    ProxyIsNoId();
    if MaskSegment(seg) != seg {
      BracesAreNoId(MaskSegment(seg));
    }
  }

  lemma MaskedEndsInBrace(seg: string)
    ensures MaskSegment(seg) == seg || (MaskSegment(seg) != "" && MaskSegment(seg)[|MaskSegment(seg)| - 1] == '}')
    ensures LooksLikeId(seg) ==> MaskSegment(seg) != "" && MaskSegment(seg)[|MaskSegment(seg)| - 1] == '}'
  {
    hide IsUuid, IsPrefixed, IsHex, IsDigits;
  }

  /** A text that ends in a brace is none of the identifiers. */
  lemma BracesAreNoId(s: string)
    requires s != "" && s[|s| - 1] == '}'
    ensures MaskSegment(s) == s && !LooksLikeId(s)
  {
    assert Body(s) == s;
    assert !HexChar(s[|s| - 1]) && !Alnum(s[|s| - 1]);
    assert |s| == 36 ==> s[24..][11] == s[|s| - 1];
    var u := IndexOf(s, '_');
    assert u < |s| - 1 ==> s[u + 1..][|s| - u - 2] == s[|s| - 1];
  }

  lemma ProxyIsNoId()
    ensures MaskSegment(PROXY) == PROXY
  {
    assert IndexOf(PROXY, '_') == 3 by {
      assert PROXY[3] == '_' && PROXY[0] != '_' && PROXY[1] != '_' && PROXY[2] != '_';
    }
    assert !DigitChar(PROXY[0]);
    assert !HexChar(PROXY[0]);
  }

  lemma {:induction false} MaskSegmentsIdempotent(segs: seq<string>, maskedRest: bool)
    ensures MaskSegments(MaskSegments(segs, maskedRest), maskedRest) == MaskSegments(segs, maskedRest)
  {
    if segs != [] {
      hide MaskSegment;
      var out := MaskSegments(segs, maskedRest);
      if maskedRest {
        MaskSegmentsIdempotent(segs[1..], true);
        assert out[1..] == MaskSegments(segs[1..], true);
      } else {
        MaskSegmentIdempotent(segs[0]);
        MaskSegmentsIdempotent(segs[1..], segs[0] == PROXY);
        assert out[1..] == MaskSegments(segs[1..], segs[0] == PROXY);
      }
    }
  }

  lemma {:induction false} RestIsX(segs: seq<string>, j: nat)
    requires j < |segs|
    ensures MaskSegments(segs, true)[j] == "{x}"
  {
    if j > 0 {
      RestIsX(segs[1..], j - 1);
    }
  }

  /** Segment by segment: masked up to and including the first `git_proxy`, and {x} after it,
      so what follows it shows nothing but how many segments there were. */
  lemma {:induction false} MaskedSegments(segs: seq<string>, j: nat)
    requires j < |segs|
    ensures MaskSegments(segs, false)[j] ==
      if PROXY in segs[..j] then "{x}" else MaskSegment(segs[j])
  {
    hide MaskSegment;
    if j > 0 {
      assert segs[..j] == [segs[0]] + segs[1..][..j - 1];
      if segs[0] == PROXY {
        RestIsX(segs[1..], j - 1);
      } else {
        MaskedSegments(segs[1..], j - 1);
      }
    }
  }

  /** Two paths that agree up to and including the first `git_proxy`, and have equally many
      segments, have one masked form. */
  lemma AfterProxyOnlyTheCountShows(p: string, q: string, n: nat)
    requires
      var a, b := Split(BeforeQuery(p), '/'), Split(BeforeQuery(q), '/');
      |a| == |b| && n < |a| && a[n] == PROXY && a[..n + 1] == b[..n + 1]
    ensures MaskedPath(p) == MaskedPath(q)
  {
    hide MaskSegment, MaskSegments, Split, BeforeQuery, Join;
    var a, b := Split(BeforeQuery(p), '/'), Split(BeforeQuery(q), '/');
    forall j | 0 <= j < |a|
      ensures MaskSegments(a, false)[j] == MaskSegments(b, false)[j]
    {
      MaskedSegments(a, j);
      MaskedSegments(b, j);
      if j <= n {
        assert a[j] == a[..n + 1][j] == b[..n + 1][j] == b[j];
        assert a[..j] == a[..n + 1][..j] == b[..n + 1][..j] == b[..j];
      } else {
        assert a[..j][n] == PROXY && b[n] == b[..n + 1][n] && b[..j][n] == b[n];
      }
    }
    assert MaskSegments(a, false) == MaskSegments(b, false);
  }

  lemma IndexIs(s: string, c: char, i: nat)
    requires i < |s| && s[i] == c && forall j :: 0 <= j < i ==> s[j] != c
    ensures IndexOf(s, c) == i
  {
    assert IndexOf(s, c) >= i;
    assert IndexOf(s, c) <= i;
  }

  lemma {:induction false} SplitJoin(parts: seq<string>, c: char)
    requires parts != [] && forall i :: 0 <= i < |parts| ==> Free(c, parts[i])
    ensures Split(Join(c, parts), c) == parts
  {
    var s := Join(c, parts);
    if |parts| == 1 {
      assert IndexOf(s, c) == |s|;
    } else {
      var rest := Join(c, parts[1..]);
      assert s == parts[0] + [c] + rest;
      var i := |parts[0]|;
      assert s[i] == c;
      assert forall j :: 0 <= j < i ==> s[j] == parts[0][j] && parts[0][j] in parts[0];
      IndexIs(s, c, i);
      assert s[..i] == parts[0] && s[i + 1..] == rest;
      SplitJoin(parts[1..], c);
      assert parts == [parts[0]] + parts[1..];
    }
  }

  lemma MaskSegmentFree(seg: string, c: char)
    requires Free(c, seg) && (c == '/' || c == '?')
    ensures Free(c, MaskSegment(seg))
  {
  }

  lemma {:induction false} MaskSegmentsFree(segs: seq<string>, maskedRest: bool, c: char)
    requires (c == '/' || c == '?') && forall i :: 0 <= i < |segs| ==> Free(c, segs[i])
    ensures forall i :: 0 <= i < |segs| ==> Free(c, MaskSegments(segs, maskedRest)[i])
  {
    if segs != [] {
      hide MaskSegment;
      MaskSegmentFree(segs[0], c);
      MaskSegmentsFree(segs[1..], if maskedRest then true else segs[0] == PROXY, c);
    }
  }

  /** Masking a masked path changes nothing. */
  lemma MaskedPathIdempotent(path: string)
    ensures MaskedPath(MaskedPath(path)) == MaskedPath(path)
    ensures |Split(MaskedPath(path), '/')| == |Split(BeforeQuery(path), '/')|
  {
    hide MaskSegments, Split, Join;
    var raw := BeforeQuery(path);
    var segs := Split(raw, '/');
    var out := MaskSegments(segs, false);
    assert Free('?', raw);
    SplitFree(raw, '/', '?');
    MaskSegmentsFree(segs, false, '/');
    MaskSegmentsFree(segs, false, '?');
    assert forall p :: p in out ==> Free('?', p);
    JoinFree('?', '/', out);
    NoQuery(Join('/', out));
    SplitJoin(out, '/');
    MaskSegmentsIdempotent(segs, false);
  }

  lemma NoQuery(s: string)
    requires Free('?', s)
    ensures BeforeQuery(s) == s
  {
    assert IndexOf(s, '?') == |s|;
  }

  lemma {:induction false} SplitFree(s: string, c: char, d: char)
    requires Free(d, s)
    ensures forall i :: 0 <= i < |Split(s, c)| ==> Free(d, Split(s, c)[i])
    decreases |s|
  {
    var i := IndexOf(s, c);
    if i < |s| {
      SplitFree(s[i + 1..], c, d);
    }
  }

  // ------------------------------------------------------------ the JSON skeleton

  /** A JSON value; an object keeps its insertion order. */
  datatype Json = Obj(fields: seq<(string, Json)>) | Arr(items: seq<Json>) | Bool(b: bool) | Num(n: int) | Null | Str(s: string)

  /** What `shape` returns. */
  datatype Shape = DepthLimit | SObj(fields: seq<(string, Shape)>) | SEmpty | SArr(first: Shape, count: nat)
                 | SBool | SNumber | SNull | SString | SEnum(value: string)

  const MAX_DEPTH: nat := 8

  const ENUM_KEYS: set<string> := {"type", "kind", "status", "state", "role", "event_type", "subtype",
                                   "permission_mode", "model", "outcome", "mode", "error_type"}

  /** Whether the text of a string value is kept under `key`. */
  predicate Kept(key: string, value: string) {
    key in ENUM_KEYS && IsToken(Body(value)) && !LooksLikeId(value)
  }

  function Keys<V>(fields: seq<(string, V)>): (keys: seq<string>)
    ensures |keys| == |fields| && forall i :: 0 <= i < |keys| ==> keys[i] == fields[i].0
  {
    seq(|fields|, (i: int) requires 0 <= i < |fields| => fields[i].0)
  }

  /** `value[k]`. */
  function Get(fields: seq<(string, Json)>, k: string): Json {
    if fields == [] then Null else if fields[0].0 == k then fields[0].1 else Get(fields[1..], k)
  }

  /** `shape`. */
  function ShapeOf(value: Json, key: string, depth: nat): Shape
    decreases MAX_DEPTH - depth
  {
    if depth >= MAX_DEPTH then DepthLimit
    else
      match value
      case Obj(fields) =>
        var keys := SortKeys(Keys(fields));
        SObj(seq(|keys|, (i: int) requires 0 <= i < |keys| =>
          (keys[i], ShapeOf(Get(fields, keys[i]), keys[i], depth + 1))))
      case Arr(items) => if items == [] then SEmpty else SArr(ShapeOf(items[0], key, depth + 1), |items|)
      case Bool(_) => SBool
      case Num(_) => SNumber
      case Null => SNull
      case Str(s) => if Kept(key, s) then SEnum(s) else SString
  }

  /** Two values that a reader of the skeleton must not be able to tell apart: the same keys
      in any order, the same array lengths and alike first items, the same kinds, and the same
      strings only where strings are kept. Below the depth limit anything goes. */
  ghost predicate Alike(v: Json, w: Json, key: string, depth: nat)
    decreases MAX_DEPTH - depth
  {
    depth >= MAX_DEPTH ||
    match (v, w)
    case (Obj(f), Obj(g)) =>
      && (forall k :: k in Keys(f) <==> k in Keys(g))
      && (forall k :: k in Keys(f) ==> Alike(Get(f, k), Get(g, k), k, depth + 1))
    case (Arr(a), Arr(b)) => |a| == |b| && (a != [] ==> Alike(a[0], b[0], key, depth + 1))
    case (Bool(_), Bool(_)) => true
    case (Num(_), Num(_)) => true
    case (Null, Null) => true
    case (Str(s), Str(t)) => Kept(key, s) == Kept(key, t) && (Kept(key, s) ==> s == t)
    case _ => false
  }

  ghost predicate DistinctKeys(keys: seq<string>) {
    forall i, j :: 0 <= i < j < |keys| ==> keys[i] != keys[j]
  }

  /** A Python dict has each key once, at every level. */
  ghost predicate ProperDicts(v: Json) {
    match v
    case Obj(fields) => DistinctKeys(Keys(fields)) && forall i :: 0 <= i < |fields| ==> ProperDicts(fields[i].1)
    case Arr(items) => forall i :: 0 <= i < |items| ==> ProperDicts(items[i])
    case _ => true
  }

  lemma {:induction false} SortKeysSorts(keys: seq<string>)
    requires DistinctKeys(keys)
    ensures SortedKeys(SortKeys(keys))
    ensures forall x :: x in SortKeys(keys) <==> x in keys
  {
    if keys != [] {
      assert DistinctKeys(keys[1..]);
      SortKeysSorts(keys[1..]);
      assert keys[0] !in keys[1..];
      InsertKeySorts(keys[0], SortKeys(keys[1..]));
    }
  }

  lemma {:induction false} HeadIsLeastKey(keys: seq<string>, x: string)
    requires SortedKeys(keys) && x in keys
    ensures Leq(keys[0], x)
    ensures x != keys[0] ==> x in keys[1..]
    ensures keys[0] !in keys[1..]
  {
    LeqTotal(keys[0], keys[0]);
    if |keys| >= 2 {
      if x != keys[0] {
        HeadIsLeastKey(keys[1..], x);
        LeqTransitive(keys[0], keys[1], x);
      }
      if keys[0] in keys[1..] {
        HeadIsLeastKey(keys[1..], keys[0]);
        LeqTotal(keys[0], keys[1]);
      }
    }
  }

  lemma NoKeys(keys: seq<string>)
    ensures (forall x :: x !in keys) ==> keys == []
  {
    if keys != [] {
      assert keys[0] in keys;
    }
  }

  /** A sorted list of keys is determined by which keys are in it. */
  lemma {:induction false} SortedKeysUnique(a: seq<string>, b: seq<string>)
    requires SortedKeys(a) && SortedKeys(b) && forall x :: x in a <==> x in b
    ensures a == b
  {
    if a == [] || b == [] {
      NoKeys(a);
      NoKeys(b);
    } else {
      assert a[0] in b && b[0] in a;
      HeadIsLeastKey(a, b[0]);
      HeadIsLeastKey(b, a[0]);
      LeqTotal(a[0], b[0]);
      forall x
        ensures x in a[1..] <==> x in b[1..]
      {
        if x in a {
          HeadIsLeastKey(a, x);
          HeadIsLeastKey(b, x);
        }
      }
      SortedKeysUnique(a[1..], b[1..]);
      assert a == [a[0]] + a[1..] && b == [b[0]] + b[1..];
    }
  }

  lemma {:induction false} GetIsProper(fields: seq<(string, Json)>, k: string)
    requires (forall i :: 0 <= i < |fields| ==> ProperDicts(fields[i].1)) && k in Keys(fields)
    ensures ProperDicts(Get(fields, k))
  {
    if fields[0].0 != k {
      assert Keys(fields)[1..] == Keys(fields[1..]);
      assert k in Keys(fields[1..]);
      GetIsProper(fields[1..], k);
    }
  }

  /** Non-interference, both ways: two values have the same skeleton exactly when they are
      alike. */
  lemma {:induction false} SameShapeIffAlike(v: Json, w: Json, key: string, depth: nat)
    requires ProperDicts(v) && ProperDicts(w)
    ensures ShapeOf(v, key, depth) == ShapeOf(w, key, depth) <==> Alike(v, w, key, depth)
    decreases MAX_DEPTH - depth
  {
    if depth < MAX_DEPTH {
      if v.Obj? && w.Obj? {
        ObjectsAlike(v.fields, w.fields, key, depth);
      } else if v.Arr? && w.Arr? && v.items != [] && w.items != [] {
        SameShapeIffAlike(v.items[0], w.items[0], key, depth + 1);
      }
    }
  }

  lemma {:induction false} ObjectsAlike(f: seq<(string, Json)>, g: seq<(string, Json)>, key: string, depth: nat)
    requires depth < MAX_DEPTH && ProperDicts(Obj(f)) && ProperDicts(Obj(g))
    ensures ShapeOf(Obj(f), key, depth) == ShapeOf(Obj(g), key, depth) <==> Alike(Obj(f), Obj(g), key, depth)
    decreases MAX_DEPTH - depth, 0
  {
    hide Kept, Get, SortKeys, Keys;
    var a, b := SortKeys(Keys(f)), SortKeys(Keys(g));
    var s, t := ShapeOf(Obj(f), key, depth).fields, ShapeOf(Obj(g), key, depth).fields;
    SortKeysSorts(Keys(f));
    SortKeysSorts(Keys(g));
    forall k | k in Keys(f) && k in Keys(g)
      ensures ShapeOf(Get(f, k), k, depth + 1) == ShapeOf(Get(g, k), k, depth + 1)
         <==> Alike(Get(f, k), Get(g, k), k, depth + 1)
    {
      GetIsProper(f, k);
      GetIsProper(g, k);
      SameShapeIffAlike(Get(f, k), Get(g, k), k, depth + 1);
    }
    if s == t {
      SameFieldKeys(f, g, key, depth);
    }
    if Alike(Obj(f), Obj(g), key, depth) {
      SortedKeysUnique(a, b);
      assert forall i :: 0 <= i < |a| ==> a[i] in a;
    }
  }

  lemma SameFieldKeys(f: seq<(string, Json)>, g: seq<(string, Json)>, key: string, depth: nat)
    requires depth < MAX_DEPTH && ShapeOf(Obj(f), key, depth) == ShapeOf(Obj(g), key, depth)
    ensures SortKeys(Keys(f)) == SortKeys(Keys(g))
    ensures forall k :: k in SortKeys(Keys(f)) ==>
      ShapeOf(Get(f, k), k, depth + 1) == ShapeOf(Get(g, k), k, depth + 1)
  {
    var a, b := SortKeys(Keys(f)), SortKeys(Keys(g));
    var s, t := ShapeOf(Obj(f), key, depth).fields, ShapeOf(Obj(g), key, depth).fields;
    forall i | 0 <= i < |a|
      ensures a[i] == b[i] && ShapeOf(Get(f, a[i]), a[i], depth + 1) == ShapeOf(Get(g, a[i]), a[i], depth + 1)
    {
      assert s[i] == t[i];
    }
  }
}
