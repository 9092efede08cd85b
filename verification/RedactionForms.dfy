/**
 What masking hides: no identifier is left in a path or a skeleton, and an identifier shows
 nothing but its form.
 */
module RedactionForms {
  import opened Text
  import opened Redaction

  // ------------------------------------------------------------ nothing that looks like an identifier

  lemma MaskedIsNoId(seg: string)
    ensures !LooksLikeId(MaskSegment(seg))
  {
    hide MaskSegment, LooksLikeId;
    MaskedEndsInBrace(seg);
    if MaskSegment(seg) != seg || LooksLikeId(seg) {
      BracesAreNoId(MaskSegment(seg));
    }
  }

  /** No segment of a masked path looks like an identifier. */
  lemma MaskedPathHasNoId(path: string)
    ensures forall p :: p in Split(MaskedPath(path), '/') ==> !LooksLikeId(p)
    ensures '?' !in MaskedPath(path)
  {
    hide MaskSegments, MaskSegment, Split, Join, LooksLikeId;
    var raw := BeforeQuery(path);
    var segs := Split(raw, '/');
    var out := MaskSegments(segs, false);
    assert Free('?', raw);
    SplitFree(raw, '/', '?');
    MaskSegmentsFree(segs, false, '/');
    MaskSegmentsFree(segs, false, '?');
    JoinFree('?', '/', out);
    SplitJoin(out, '/');
    forall j | 0 <= j < |out|
      ensures !LooksLikeId(out[j])
    {
      MaskedSegments(segs, j);
      MaskedIsNoId(segs[j]);
      BracesAreNoId("{x}");
    }
  }

  // ------------------------------------------------------------ the forms

  predicate Hexadecimal(s: string) {
    forall i :: 0 <= i < |s| ==> '0' <= s[i] <= '9' || 'a' <= s[i] <= 'f' || 'A' <= s[i] <= 'F'
  }

  predicate Numeric(s: string) {
    forall i :: 0 <= i < |s| ==> '0' <= s[i] <= '9'
  }

  predicate LowerCase(s: string) {
    forall i :: 0 <= i < |s| ==> 'a' <= s[i] <= 'z'
  }

  predicate Alphanumeric(s: string) {
    forall i :: 0 <= i < |s| ==> '0' <= s[i] <= '9' || 'a' <= s[i] <= 'z' || 'A' <= s[i] <= 'Z'
  }

  /** Five groups of hexadecimal digits. */
  ghost predicate UuidOf(s: string, a: string, b: string, c: string, d: string, e: string) {
    && |a| == 8 && |b| == 4 && |c| == 4 && |d| == 4 && |e| == 12
    && Hexadecimal(a) && Hexadecimal(b) && Hexadecimal(c) && Hexadecimal(d) && Hexadecimal(e)
    && s == a + "-" + b + "-" + c + "-" + d + "-" + e
  }

  /** A short lower-case word, an underscore, and ten or more letters and digits. */
  ghost predicate PrefixedOf(s: string, prefix: string, rest: string) {
    && 2 <= |prefix| <= 12 && LowerCase(prefix) && |rest| >= 10 && Alphanumeric(rest)
    && s == prefix + "_" + rest
  }

  lemma UuidForm(s: string, a: string, b: string, c: string, d: string, e: string)
    requires UuidOf(s, a, b, c, d, e)
    ensures IsUuid(s)
  {
    assert s[..8] == a && s[9..13] == b && s[14..18] == c && s[19..23] == d && s[24..] == e;
  }

  lemma PrefixedForm(s: string, prefix: string, rest: string)
    requires PrefixedOf(s, prefix, rest)
    ensures IsPrefixed(s) && IndexOf(s, '_') == |prefix|
    ensures !IsUuid(s)
  {
    var n := |prefix|;
    assert s[..n] == prefix && s[n + 1..] == rest && s[n] == '_';
    assert forall k :: 0 <= k < n ==> s[k] == prefix[k];
    IndexIs(s, '_', n);
    if IsUuid(s) {
      NoUnderscoreInUuid(s, n);
    }
  }

  lemma NoUnderscoreInUuid(s: string, n: nat)
    requires IsUuid(s) && n < |s|
    ensures s[n] != '_'
  {
    if n < 8 {
      assert s[..8][n] == s[n];
    } else if 9 <= n < 13 {
      assert s[9..13][n - 9] == s[n];
    } else if 14 <= n < 18 {
      assert s[14..18][n - 14] == s[n];
    } else if 19 <= n < 23 {
      assert s[19..23][n - 19] == s[n];
    } else if n >= 24 {
      assert s[24..][n - 24] == s[n];
    }
  }

  lemma HexForm(s: string)
    requires |s| >= 16 && Hexadecimal(s)
    ensures IsHex(s) && !IsUuid(s) && !IsPrefixed(s)
  {
    var u := IndexOf(s, '_');
  }

  lemma DigitsForm(s: string)
    requires 6 <= |s| < 16 && Numeric(s)
    ensures IsDigits(s) && !IsUuid(s) && !IsPrefixed(s) && !IsHex(s)
  {
    var u := IndexOf(s, '_');
  }

  /** What a segment is masked to, from its form; a final line feed counts for nothing. */
  lemma FormsAreMasked(seg: string)
    ensures (exists a, b, c, d, e :: UuidOf(Body(seg), a, b, c, d, e)) ==> MaskSegment(seg) == "{uuid}"
    ensures forall prefix, rest :: PrefixedOf(Body(seg), prefix, rest) ==> MaskSegment(seg) == prefix + "_{id}"
    ensures |Body(seg)| >= 16 && Hexadecimal(Body(seg)) ==> MaskSegment(seg) == "{hex}"
    ensures 6 <= |Body(seg)| < 16 && Numeric(Body(seg)) ==> MaskSegment(seg) == "{n}"
  {
    hide IsUuid, IsPrefixed, IsHex, IsDigits, Body, Hexadecimal, Numeric, UuidOf, PrefixedOf;
    var s := Body(seg);
    if a, b, c, d, e :| UuidOf(s, a, b, c, d, e) {
      UuidForm(s, a, b, c, d, e);
    }
    forall prefix, rest | PrefixedOf(s, prefix, rest)
      ensures MaskSegment(seg) == prefix + "_{id}"
    {
      PrefixedForm(s, prefix, rest);
      PrefixIs(s, prefix, rest);
    }
    if |s| >= 16 && Hexadecimal(s) {
      HexForm(s);
    }
    if 6 <= |s| < 16 && Numeric(s) {
      DigitsForm(s);
    }
  }

  lemma PrefixIs(s: string, prefix: string, rest: string)
    requires PrefixedOf(s, prefix, rest)
    ensures |prefix| <= |s| && s[..|prefix|] == prefix
  {
  }

  /** And nothing else is masked. */
  lemma OnlyFormsAreMasked(seg: string)
    requires MaskSegment(seg) != seg
    ensures
      var s := Body(seg);
      || (exists a, b, c, d, e :: UuidOf(s, a, b, c, d, e))
      || (exists prefix, rest :: PrefixedOf(s, prefix, rest))
      || (|s| >= 16 && Hexadecimal(s))
      || (|s| >= 6 && Numeric(s))
  {
    var s := Body(seg);
    if IsUuid(s) {
      UuidParts(s);
    } else if IsPrefixed(s) {
      PrefixedParts(s);
    }
  }

  lemma UuidParts(s: string)
    requires IsUuid(s)
    ensures UuidOf(s, s[..8], s[9..13], s[14..18], s[19..23], s[24..])
  {
    assert s == s[..8] + [s[8]] + s[9..13] + [s[13]] + s[14..18] + [s[18]] + s[19..23] + [s[23]] + s[24..];
  }

  lemma PrefixedParts(s: string)
    requires IsPrefixed(s)
    ensures var u := IndexOf(s, '_'); u < |s| && PrefixedOf(s, s[..u], s[u + 1..])
  {
    var u := IndexOf(s, '_');
    hide IndexOf, IsUuid;
    CutAt(s, u);
    assert LowerCase(s[..u]) && Alphanumeric(s[u + 1..]);
  }

  lemma CutAt(s: string, u: nat)
    requires u < |s| && s[u] == '_'
    ensures s == s[..u] + "_" + s[u + 1..]
  {
  }

  // ------------------------------------------------------------ two identifiers of one form

  /** Two identifiers of one kind, and if they are prefixed, of one prefix. */
  ghost predicate SameForm(x: string, y: string) {
    var s, t := Body(x), Body(y);
    || ((exists a, b, c, d, e :: UuidOf(s, a, b, c, d, e)) && (exists a, b, c, d, e :: UuidOf(t, a, b, c, d, e)))
    || (exists prefix, u, v :: PrefixedOf(s, prefix, u) && PrefixedOf(t, prefix, v))
    || (|s| >= 16 && Hexadecimal(s) && |t| >= 16 && Hexadecimal(t))
    || (6 <= |s| < 16 && Numeric(s) && 6 <= |t| < 16 && Numeric(t))
  }

  lemma SameFormSameMask(x: string, y: string)
    requires SameForm(x, y)
    ensures MaskSegment(x) == MaskSegment(y) && x != PROXY && y != PROXY
  {
    hide MaskSegment, Body, UuidOf, PrefixedOf, Hexadecimal, Numeric;
    FormsAreMasked(x);
    FormsAreMasked(y);
    NotProxy(MaskSegment(x));
    ProxyIsNoId();
  }

  lemma NotProxy(m: string)
    requires m == "{uuid}" || m == "{hex}" || m == "{n}" || exists prefix: string :: m == prefix + "_{id}"
    ensures m != PROXY
  {
    assert PROXY[|PROXY| - 1] == 'y';
    if prefix: string :| m == prefix + "_{id}" {
      assert m[|m| - 1] == '}';
    }
  }

  /** Paths that differ only in identifiers of one form have one masked form. */
  lemma PathsOfOneForm(p: string, q: string)
    requires
      var a, b := Split(BeforeQuery(p), '/'), Split(BeforeQuery(q), '/');
      |a| == |b| && forall j :: 0 <= j < |a| ==> a[j] == b[j] || SameForm(a[j], b[j])
    ensures MaskedPath(p) == MaskedPath(q)
  {
    hide MaskSegment, MaskSegments, Split, BeforeQuery, Join, SameForm;
    var a, b := Split(BeforeQuery(p), '/'), Split(BeforeQuery(q), '/');
    forall j | 0 <= j < |a|
      ensures MaskSegments(a, false)[j] == MaskSegments(b, false)[j]
    {
      MaskedSegments(a, j);
      MaskedSegments(b, j);
      forall k | 0 <= k <= j
        ensures MaskSegment(a[k]) == MaskSegment(b[k]) && (a[k] == PROXY <==> b[k] == PROXY)
      {
        if a[k] != b[k] {
          SameFormSameMask(a[k], b[k]);
        }
      }
      if PROXY in a[..j] {
        var k :| 0 <= k < j && a[..j][k] == PROXY;
        assert b[..j][k] == b[k];
      }
      if PROXY in b[..j] {
        var k :| 0 <= k < j && b[..j][k] == PROXY;
        assert a[..j][k] == a[k];
      }
    }
    assert MaskSegments(a, false) == MaskSegments(b, false);
  }

  // ------------------------------------------------------------ what a skeleton keeps

  predicate PlainToken(s: string) {
    && 1 <= |s| <= 40
    && forall i :: 0 <= i < |s| ==>
         '0' <= s[i] <= '9' || 'a' <= s[i] <= 'z' || 'A' <= s[i] <= 'Z' || s[i] == '_' || s[i] == '.' || s[i] == '-'
  }

  /** The keys under which a value may be kept. */
  predicate EnumKey(key: string) {
    || key == "type" || key == "kind" || key == "status" || key == "state" || key == "role" || key == "event_type"
    || key == "subtype" || key == "permission_mode" || key == "model" || key == "outcome" || key == "mode"
    || key == "error_type"
  }

  /** Every string in the skeleton is a short plain token under an enumeration key, and does
      not look like an identifier. */
  ghost predicate Discreet(shape: Shape, key: string) {
    match shape
    case SObj(fields) => forall i :: 0 <= i < |fields| ==> Discreet(fields[i].1, fields[i].0)
    case SArr(first, _) => Discreet(first, key)
    case SEnum(value) => EnumKey(key) && PlainToken(Body(value)) && !LooksLikeId(value)
    case _ => true
  }

  lemma KeptIff(key: string, value: string)
    ensures Kept(key, value) <==> EnumKey(key) && PlainToken(Body(value)) && !LooksLikeId(value)
  {
    hide LooksLikeId, Body;
  }

  lemma {:induction false} SkeletonIsDiscreet(value: Json, key: string, depth: nat)
    ensures Discreet(ShapeOf(value, key, depth), key)
    decreases MAX_DEPTH - depth
  {
    hide Kept, EnumKey, PlainToken, LooksLikeId, Get, SortKeys;
    if depth < MAX_DEPTH {
      match value
      case Obj(fields) =>
        var keys := SortKeys(Keys(fields));
        forall i | 0 <= i < |keys|
          ensures Discreet(ShapeOf(Get(fields, keys[i]), keys[i], depth + 1), keys[i])
        {
          SkeletonIsDiscreet(Get(fields, keys[i]), keys[i], depth + 1);
        }
      case Arr(items) =>
        if items != [] {
          SkeletonIsDiscreet(items[0], key, depth + 1);
        }
      case Str(s) => KeptIff(key, s);
      case _ =>
    }
  }

  /** And such a string is kept, so the skeleton says which event it was. */
  lemma TokensAreKept(key: string, value: string, depth: nat)
    requires depth < 8
    ensures ShapeOf(Str(value), key, depth) == SEnum(value) <==> EnumKey(key) && PlainToken(Body(value)) && !LooksLikeId(value)
    ensures ShapeOf(Str(value), key, depth) != SEnum(value) ==> ShapeOf(Str(value), key, depth) == SString
    ensures forall v: Json, k: string, n: nat :: n >= 8 ==> ShapeOf(v, k, n) == DepthLimit
  {
    hide Kept;
    KeptIff(key, value);
  }

  // ------------------------------------------------------------ queries

  /** `a=1`, `b=2`, ... */
  function Assignments(names: seq<string>, values: seq<string>): (parts: seq<string>)
    requires |names| == |values|
    ensures |parts| == |names| && forall i :: 0 <= i < |parts| ==> parts[i] == names[i] + "=" + values[i]
  {
    if names == [] then [] else [names[0] + "=" + values[0]] + Assignments(names[1..], values[1..])
  }

  lemma NameIsBeforeEquals(name: string, value: string)
    requires '=' !in name
    ensures NameOf(name + "=" + value) == name && NameOf(name) == name
  {
    var s := name + "=" + value;
    assert s[|name|] == '=';
    assert forall j :: 0 <= j < |name| ==> s[j] == name[j];
    assert s[..|name|] == name;
  }

  /** One more part. */
  lemma OneMorePart(parts: seq<string>, name: string)
    requires parts != [] && parts[0] != "" && NameOf(parts[0]) == name
    ensures
      var more := SortedNames(parts[1..]);
      && SortedNames(parts) == (if name in more then more else InsertKey(name, more))
      && forall x :: x in SortedNames(parts) <==> x == name || x in more
  {
    hide NameOf, SortedKeys, InsertKey;
    var more := SortedNames(parts[1..]);
    NamesOfParts(parts[1..]);
    if name !in more {
      InsertKeySorts(name, more);
    }
  }

  /** Of a query only the names are recorded: with other values it is recorded alike. */
  lemma {:induction false} ValuesDoNotShow(names: seq<string>, values: seq<string>, others: seq<string>)
    requires |names| == |values| == |others| && forall n :: n in names ==> '=' !in n
    ensures SortedNames(Assignments(names, values)) == SortedNames(Assignments(names, others))
    ensures forall x :: x in SortedNames(Assignments(names, values)) <==> x in names
  {
    hide NameOf, InsertKey, SortedNames;
    if names == [] {
      NoNames();
    } else {
      var parts, alike := Assignments(names, values), Assignments(names, others);
      NameIsBeforeEquals(names[0], values[0]);
      NameIsBeforeEquals(names[0], others[0]);
      ValuesDoNotShow(names[1..], values[1..], others[1..]);
      OneMorePart(parts, names[0]);
      OneMorePart(alike, names[0]);
      assert forall x :: x in names <==> x == names[0] || x in names[1..];
    }
  }

  lemma NoNames()
    ensures SortedNames([]) == []
  {
  }

  /** What is recorded of a path and its query: the masked path, and the names of the query's parts. */
  lemma RecordedParts(front: string, parts: seq<string>)
    requires '?' !in front && parts != [] && forall p :: p in parts ==> Free('&', p)
    ensures MaskedPath(front + "?" + Join('&', parts)) == MaskedPath(front)
    ensures QueryNames(front + "?" + Join('&', parts)) == SortedNames(parts)
    ensures QueryNames(front) == []
  {
    hide MaskSegments, Join, Split, SortedNames;
    var query := Join('&', parts);
    var path := front + "?" + query;
    assert path[|front|] == '?' && forall j :: 0 <= j < |front| ==> path[j] == front[j];
    assert IndexOf(path, '?') == |front| && IndexOf(front, '?') == |front|;
    assert path[..|front|] == front && front[..|front|] == front && path[|front| + 1..] == query;
    SplitJoin(parts, '&');
    NothingToName();
  }

  lemma NothingToName()
    ensures SortedNames(Split("", '&')) == []
  {
    assert Split("", '&') == [""];
  }

  /** The other kinds of value show only what they are. */
  lemma ScalarsAreNamed(b: bool, n: int, items: seq<Json>, key: string, depth: nat)
    requires depth < 8
    ensures ShapeOf(Bool(b), key, depth) == SBool && ShapeOf(Num(n), key, depth) == SNumber && ShapeOf(Null, key, depth) == SNull
    ensures items != [] ==> ShapeOf(Arr(items), key, depth) == SArr(ShapeOf(items[0], key, depth + 1), |items|)
    ensures ShapeOf(Arr([]), key, depth) == SEmpty
  {
  }
}
