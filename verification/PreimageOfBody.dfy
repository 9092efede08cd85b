/**
 `cch_preimage` of scripts/cc_billing.py as a whole: what the second substitution
 still finds once the first has emptied the model value.
 */
module PreimageOfBody {
  import opened Options
  import opened Preimage

  // ------------------------------------------------------------ the two literals

  lemma NameChars(s: string, p: nat)
    requires At(s, p, Tokens())
    ensures p + 13 <= |s|
    ensures s[p] == '"' && s[p + 1] == 'm' && s[p + 2] == 'a' && s[p + 11] == '"' && s[p + 12] == ':'
    ensures forall j :: p < j < p + 11 ==> s[j] != '"'
  {
    var name := s[p..p + 13];
    forall j | p <= j < p + 13
      ensures s[j] == Tokens()[j - p]
    {
      assert name[j - p] == s[j];
    }
  }

  lemma ModelChars(s: string, q: nat)
    requires At(s, q, Model())
    ensures q + 9 <= |s|
    ensures s[q] == '"' && s[q + 1] == 'm' && s[q + 2] == 'o' && s[q + 6] == '"' && s[q + 7] == ':' && s[q + 8] == '"'
    ensures forall j :: q <= j < q + 9 ==> !IsDigit(s[j])
    ensures forall j :: q < j < q + 6 ==> s[j] != '"'
  {
    var name := s[q..q + 9];
    forall j | q <= j < q + 9
      ensures s[j] == Model()[j - q]
    {
      assert name[j - q] == s[j];
    }
  }

  /** A max_tokens name overlaps a model literal at most in its closing quote. */
  lemma NamesApart(s: string, p: nat, q: nat)
    requires At(s, p, Tokens()) && At(s, q, Model())
    ensures p + 13 <= q || q + 8 <= p
  {
    hide *;
    NameChars(s, p);
    ModelChars(s, q);
  }

  // ------------------------------------------------------------ fields around an emptied value

  /** The digits after i end in the suffix where they end in the whole. */
  lemma {:induction false} DigitsEndInSuffix(s: string, t: string, a: nat, b: nat, i: nat)
    requires a <= |s| && b <= |t| && s[a..] == t[b..] && a <= i <= |s|
    ensures DigitsEnd(t, i - a + b) == DigitsEnd(s, i) - a + b
    decreases |s| - i
  {
    assert |s| - a == |t| - b;
    if i < |s| {
      assert s[i] == s[a..][i - a] == t[b..][i - a] == t[i - a + b];
      if IsDigit(s[i]) {
        DigitsEndInSuffix(s, t, a, b, i + 1);
      }
    }
  }

  lemma SliceOfSuffix(s: string, a: nat, i: nat, n: nat)
    requires a <= i && i + n <= |s|
    ensures s[i..i + n] == s[a..][i - a..i - a + n]
  {
  }

  lemma AtInSuffix(s: string, t: string, a: nat, b: nat, i: nat, literal: string)
    requires a <= |s| && b <= |t| && s[a..] == t[b..] && a <= i
    ensures At(s, i, literal) == At(t, i - a + b, literal)
  {
    assert |s| - a == |t| - b;
    if i + |literal| <= |s| {
      SliceOfSuffix(s, a, i, |literal|);
      SliceOfSuffix(t, b, i - a + b, |literal|);
    }
  }

  /** A field with a comma after its digits. */
  predicate CommaFollows(s: string, p: nat) {
    var d := DigitsEnd(s, p + 13);
    d < |s| && s[d] == ','
  }

  /** A field before the model literal is the same field in any text with that prefix. */
  lemma FieldInPrefix(s: string, t: string, p: nat, n: nat)
    requires p + 13 < n <= |s| && n <= |t| && s[..n] == t[..n] && s[n - 1] == '"'
    ensures HasComma(s, p) == HasComma(t, p)
  {
    hide Tokens, DigitsEnd, At;
    AtInPrefix(s, t, p, Tokens(), n);
    DigitsEndInPrefix(s, t, p + 13, n);
    var d := DigitsEnd(s, p + 13);
    assert s[d] == s[..n][d] == t[..n][d] == t[d];
    if p > 0 {
      assert s[p - 1] == s[..n][p - 1] == t[..n][p - 1] == t[p - 1];
    }
  }

  /** A field after the model value is the same field in any text with that suffix, except
      that a comma just before the closing quote was part of the value. */
  lemma FieldInSuffix(s: string, t: string, a: nat, b: nat, p: nat)
    requires 0 < a <= |s| && 0 < b <= |t| && s[a..] == t[b..] && t[b - 1] == '"' && a <= p
    ensures HasComma(t, p - a + b) <==> HasComma(s, p) && (p == a ==> CommaFollows(s, p))
  {
    hide Tokens, DigitsEnd, At;
    AtInSuffix(s, t, a, b, p, Tokens());
    assert |s| - a == |t| - b;
    if At(s, p, Tokens()) {
      NameChars(s, p);
      DigitsEndInSuffix(s, t, a, b, p + 13);
      var d := DigitsEnd(s, p + 13);
      assert d < |s| ==> s[d] == s[a..][d - a] == t[b..][d - a] == t[d - a + b];
      if p > a {
        assert s[p - 1] == s[a..][p - 1 - a] == t[b..][p - 1 - a] == t[p - 1 - a + b];
      }
    }
  }

  /** Where a field can be relative to a model value: before its literal, at its opening
      quote, or from its closing quote on. */
  lemma FieldPlace(s: string, from: nat, to: nat, p: nat)
    requires 9 <= from <= to < |s| && At(s, from - 9, Model()) && HasComma(s, p)
    requires forall j :: from <= j < to ==> s[j] != '"'
    ensures p + 13 <= from - 9 || p == from - 1 || to <= p
  {
    hide Tokens, Model, At;
    NamesApart(s, p, from - 9);
    NameChars(s, p);
  }

  /** The field at p survives the emptying of the model value: its name does not begin at the
      opening quote, and when it begins at the closing quote it has a comma of its own. */
  predicate Survives(body: string, p: nat) {
    match FirstModel(body, 0)
    case None => HasComma(body, p)
    case Some(Span(from, to)) => SurvivesValue(body, from, to, p)
  }

  predicate SurvivesValue(body: string, from: nat, to: nat, p: nat) {
    HasComma(body, p) && p + 1 != from && (p == to ==> CommaFollows(body, p))
  }

  lemma SurvivorsAreFields(body: string, from: nat, to: nat)
    requires 9 <= from <= to < |body| && body[to] == '"'
    requires ModelAt(body, from - 9) == Some(Span(from, to))
    ensures
      var t := body[..from] + body[to..];
      (exists p: nat :: SurvivesValue(body, from, to, p)) <==> exists p: nat :: HasComma(t, p)
  {
    hide HasComma, CommaFollows, At, Model;
    var t := body[..from] + body[to..];
    ModelAtParts(body, from - 9);
    ModelChars(body, from - 9);
    assert t[..from] == body[..from];
    assert t[..from - 8] == t[..from][..from - 8] == body[..from][..from - 8] == body[..from - 8];
    assert t[from..] == body[to..];
    assert t[from - 1] == body[from - 1] == '"' && t[from - 9] == body[from - 9] == '"' && t[from] == '"';
    AtInPrefix(body, t, from - 9, Model(), from);
    if p: nat :| SurvivesValue(body, from, to, p) {
      FieldPlace(body, from, to, p);
      if p < from {
        FieldInPrefix(body, t, p, from - 8);
        assert HasComma(t, p);
      } else {
        FieldInSuffix(body, t, to, from, p);
        assert HasComma(t, p - to + from);
      }
    }
    if p: nat :| HasComma(t, p) {
      FieldPlace(t, from, from, p);
      NotAtOpening(t, from, p);
      if p < from {
        FieldInPrefix(body, t, p, from - 8);
        assert SurvivesValue(body, from, to, p);
      } else {
        FieldInSuffix(body, t, to, from, p - from + to);
        assert SurvivesValue(body, from, to, p - from + to);
      }
    }
  }

  lemma NotAtOpening(t: string, from: nat, p: nat)
    requires 0 < from < |t| && t[from] == '"' && HasComma(t, p)
    ensures p != from - 1
  {
    hide Tokens, At;
    NameChars(t, p);
  }

  /** `cch_preimage` drops a max_tokens field exactly when one survives the emptying of the
      model value; then it drops exactly one, the leftmost, with exactly one comma. */
  lemma OneFieldLeaves(body: string)
    ensures (exists p: nat :: Survives(body, p)) <==> FirstField(EmptyModel(body), 0).Some?
    ensures FirstField(EmptyModel(body), 0).None? ==> CchPreimage(body) == EmptyModel(body)
    ensures FirstField(EmptyModel(body), 0).Some? ==>
      var t, Span(from, to) := EmptyModel(body), FirstField(EmptyModel(body), 0).value;
      && from < to <= |t|
      && CchPreimage(body) == t[..from] + t[to..]
      && IsFieldWithComma(t[from..to])
      && forall j :: 0 <= j < from ==> FieldAt(t, j).None?
  {
    hide HasComma, SurvivesValue, FirstModel, FirstField, DropMaxTokens, IsFieldWithComma, ModelAt, FieldAt;
    OneFieldRemoved(EmptyModel(body));
    FirstModelIsLeftmost(body, 0);
    if FirstModel(body, 0).Some? {
      var Span(from, to) := FirstModel(body, 0).value;
      SurvivorsAreFields(body, from, to);
      assert forall p: nat :: Survives(body, p) == SurvivesValue(body, from, to, p);
    } else {
      assert forall p: nat :: Survives(body, p) == HasComma(body, p);
    }
  }

  const COMMA_IN_VALUE := "\"model\":\"a,\"max_tokens\":5}"

  /** Not every field with a comma leaves: here the comma before the field is the end of the
      model value, goes with it, and the field stays. */
  lemma CommaGoesWithTheValue()
    ensures HasComma(COMMA_IN_VALUE, 11)
    ensures CchPreimage(COMMA_IN_VALUE) == EmptyModel(COMMA_IN_VALUE) == "\"model\":\"\"max_tokens\":5}"
  {
    hide FirstModel, FirstField, DropMaxTokens, FieldAt, HasComma, Survives;
    var s := COMMA_IN_VALUE;
    ItsModel();
    ItsField();
    assert s[..9] + s[11..] == "\"model\":\"\"max_tokens\":5}";
    ValueEmptied(s, 9, 11, 0);
    forall p: nat
      ensures !Survives(s, p)
    {
      NoOtherField(p);
    }
    OneFieldLeaves(s);
  }

  lemma ItsModel()
    ensures FirstModel(COMMA_IN_VALUE, 0) == Some(Span(9, 11))
  {
    hide FirstModel;
    var s := COMMA_IN_VALUE;
    assert s[0..9] == Model() && s[9] == 'a' && s[10] == ',' && s[11] == '"';
    ModelAtIs(s, 0, 11);
    LeftmostIsFirstModel(s, 0, 0);
  }

  lemma ItsField()
    ensures HasComma(COMMA_IN_VALUE, 11) && !CommaFollows(COMMA_IN_VALUE, 11)
  {
    var s := COMMA_IN_VALUE;
    assert s[11..24] == Tokens() && s[24] == '5' && s[25] == '}';
    DigitsEndIs(s, 24, 25);
  }

  lemma NoOtherField(p: nat)
    ensures !Survives(COMMA_IN_VALUE, p)
  {
    hide FirstModel, HasComma, CommaFollows;
    ItsModel();
    ItsField();
    if HasComma(COMMA_IN_VALUE, p) {
      FieldName(COMMA_IN_VALUE, p);
      NameChars(COMMA_IN_VALUE, p);
      assert p == 11;
    }
  }

  lemma FieldName(s: string, p: nat)
    requires HasComma(s, p)
    ensures At(s, p, Tokens())
  {
    hide Tokens, At;
  }

  // ------------------------------------------------------------ other digits

  lemma {:induction false} QuoteFromIs(s: string, i: nat, q: nat)
    requires i <= q < |s| && s[q] == '"' && forall j :: i <= j < q ==> s[j] != '"'
    ensures QuoteFrom(s, i) == Some(q)
  {
  }

  lemma ModelAtIs(s: string, i: nat, q: nat)
    requires At(s, i, Model()) && i + 9 <= q < |s| && s[q] == '"'
    ensures ModelAt(s, i).Some?
    ensures (forall j :: i + 9 <= j < q ==> s[j] != '"') ==> ModelAt(s, i) == Some(Span(i + 9, q))
  {
    hide Model, At, QuoteFrom;
    if forall j :: i + 9 <= j < q ==> s[j] != '"' {
      QuoteFromIs(s, i + 9, q);
    }
  }

  /** A text with some digits exchanged for others. */
  function Exchanged(x: string, digits: string, y: string): string {
    x + digits + y
  }

  predicate Digits(s: string) {
    s != "" && forall i :: 0 <= i < |s| ==> IsDigit(s[i])
  }

  lemma ExchangedParts(x: string, d: string, e: string, y: string)
    ensures |Exchanged(x, d, y)| == |x| + |d| + |y| && |Exchanged(x, e, y)| == |x| + |e| + |y|
    ensures Exchanged(x, d, y)[..|x|] == Exchanged(x, e, y)[..|x|] == x
    ensures Exchanged(x, d, y)[|x| + |d|..] == Exchanged(x, e, y)[|x| + |e|..] == y
    ensures forall j :: |x| <= j < |x| + |d| ==> Exchanged(x, d, y)[j] == d[j - |x|]
  {
  }

  /** A model match in one text is a match in the other: none overlaps the digits. */
  lemma MatchElsewhere(x: string, d: string, e: string, y: string, j: nat)
    requires Digits(d) && Digits(e) && ModelAt(Exchanged(x, e, y), j).Some?
    ensures j + 9 <= |x| || |x| + |e| <= j
    ensures ModelAt(Exchanged(x, d, y), if j + 9 <= |x| then j else j - |e| + |d|).Some?
  {
    hide Model, At, QuoteFrom, ModelAt, Exchanged;
    var u, w := Exchanged(x, d, y), Exchanged(x, e, y);
    ExchangedParts(x, d, e, y);
    ExchangedParts(x, e, d, y);
    MatchIsLiteral(w, j);
    ModelAtParts(w, j);
    ModelChars(w, j);
    var q := ModelAt(w, j).value.to;
    var k := if j < |x| then |x| else j;
    assert !(j <= k < j + 9 && k < |x| + |e|) by {
      if k < |x| + |e| {
        assert IsDigit(e[k - |x|]) && w[k] == e[k - |x|];
      }
    }
    assert w[q] == '"';
    var q' := if q < |x| then q else q - |e| + |d|;
    assert u[q'] == '"' by {
      if q < |x| {
        assert u[q] == u[..|x|][q] == w[..|x|][q];
      } else {
        assert q >= |x| + |e|;
        assert w[q] == w[|x| + |e|..][q - |x| - |e|] == u[|x| + |d|..][q - |x| - |e|] == u[q'];
      }
    }
    if j + 9 <= |x| {
      AtInPrefix(w, u, j, Model(), |x|);
      ModelAtIs(u, j, q');
    } else {
      AtInSuffix(w, u, |x| + |e|, |x| + |d|, j, Model());
      ModelAtIs(u, j - |e| + |d|, q');
    }
  }

  lemma MatchIsLiteral(s: string, j: nat)
    requires ModelAt(s, j).Some?
    ensures At(s, j, Model())
  {
    hide Model, At;
  }

  /** Where the first model value is once the digits are exchanged. */
  lemma FirstModelElsewhere(x: string, d: string, e: string, y: string)
    requires Digits(d) && Digits(e)
    ensures FirstModel(Exchanged(x, d, y), 0).None? ==> FirstModel(Exchanged(x, e, y), 0).None?
    ensures FirstModel(Exchanged(x, d, y), 0).Some? ==>
      var Span(from, to) := FirstModel(Exchanged(x, d, y), 0).value;
      && (to < |x| ==> FirstModel(Exchanged(x, e, y), 0) == Some(Span(from, to)))
      && (from >= |x| + |d| + 9 && from <= to ==>
            FirstModel(Exchanged(x, e, y), 0) == Some(Span(from - |d| + |e|, to - |d| + |e|)))
  {
    hide Model, At, QuoteFrom, ModelAt, Exchanged, FirstModel, Digits;
    var u, w := Exchanged(x, d, y), Exchanged(x, e, y);
    FirstModelIsLeftmost(u, 0);
    FirstModelIsLeftmost(w, 0);
    ExchangedParts(x, d, e, y);
    if FirstModel(u, 0).None? {
      if FirstModel(w, 0).Some? {
        MatchElsewhere(x, d, e, y, FirstModel(w, 0).value.from - 9);
        ModelInside(u);
      }
    } else {
      var Span(from, to) := FirstModel(u, 0).value;
      if to < |x| {
        MovedModel(x, d, e, y, from, to, from, to);
      } else if from >= |x| + |d| + 9 {
        MovedModel(x, d, e, y, from, to, from - |d| + |e|, to - |d| + |e|);
      }
    }
  }

  lemma ModelInside(s: string)
    ensures forall j: nat :: ModelAt(s, j).Some? ==> j < |s|
  {
    forall j: nat | ModelAt(s, j).Some?
      ensures j < |s|
    {
      ModelAtParts(s, j);
    }
  }

  lemma MovedModel(x: string, d: string, e: string, y: string, from: nat, to: nat, from': nat, to': nat)
    requires Digits(d) && Digits(e) && FirstModel(Exchanged(x, d, y), 0) == Some(Span(from, to))
    requires (to < |x| && from' == from && to' == to)
          || (from >= |x| + |d| + 9 && from' == from - |d| + |e| && to' == to - |d| + |e|)
    ensures FirstModel(Exchanged(x, e, y), 0) == Some(Span(from', to'))
  {
    hide Model, At, QuoteFrom, ModelAt, Exchanged, FirstModel, Digits;
    var u, w := Exchanged(x, d, y), Exchanged(x, e, y);
    FirstModelIsLeftmost(u, 0);
    ExchangedParts(x, d, e, y);
    MatchElsewhere(x, e, d, y, from - 9);
    ModelAtParts(u, from - 9);
    MatchIsLiteral(w, from' - 9);
    SameValue(u, w, x, |d|, |e|, from, to, from', to');
    ModelAtIs(w, from' - 9, to');
    forall j | 0 <= j < from' - 9
      ensures ModelAt(w, j).None?
    {
      if ModelAt(w, j).Some? {
        MatchElsewhere(x, d, e, y, j);
      }
    }
    LeftmostIsFirstModel(w, 0, from' - 9);
  }

  /** The value and its closing quote move together. */
  lemma SameValue(u: string, w: string, x: string, d: nat, e: nat, from: nat, to: nat, from': nat, to': nat)
    requires |x| + d <= |u| && |x| + e <= |w| && u[..|x|] == w[..|x|] && u[|x| + d..] == w[|x| + e..]
    requires from <= to < |u| && u[to] == '"' && forall j :: from <= j < to ==> u[j] != '"'
    requires (to < |x| && from' == from && to' == to)
          || (from >= |x| + d && from' == from - d + e && to' == to - d + e)
    ensures to' < |w| && w[to'] == '"' && forall j :: from' <= j < to' ==> w[j] != '"'
  {
    if to < |x| {
      assert forall j :: 0 <= j < |x| ==> u[j] == u[..|x|][j] == w[..|x|][j] == w[j];
    } else {
      assert |u| - d == |w| - e;
      assert forall j :: |x| + e <= j < |w| ==> w[j] == w[|x| + e..][j - |x| - e] == u[|x| + d..][j - |x| - e] == u[j - e + d];
    }
  }

  /** Where position i of the emptied body is in the body. */
  function InBody(body: string, i: nat): nat {
    match FirstModel(body, 0)
    case None => i
    case Some(Span(from, to)) => if from <= i && from <= to then i - from + to else i
  }

  /** The body with the digits of the field that leaves exchanged for others. */
  function WithDigits(body: string, digits: string): string {
    var t := EmptyModel(body);
    match FirstField(t, 0)
    case None => body
    case Some(Span(at, _)) =>
      if FieldAt(t, at).None? then body
      else
        var Span(d1, d2) := FieldDigits(t, at);
        var e1, e2 := InBody(body, d1), InBody(body, d1) + (if d1 <= d2 then d2 - d1 else 0);
        if e2 <= |body| then Exchanged(body[..e1], digits, body[e2..]) else body
  }

  /** Exchanging digits that lie outside the first model literal and value commutes with
      emptying the value. */
  lemma EmptiedElsewhere(body: string, e: string, d1: nat, d2: nat)
    requires Digits(e) && d1 <= d2 <= |EmptyModel(body)| && Digits(EmptyModel(body)[d1..d2])
    requires FirstModel(body, 0).Some? ==>
      d2 + 9 <= FirstModel(body, 0).value.from || FirstModel(body, 0).value.from + 1 <= d1
    ensures
      var e1, t := InBody(body, d1), EmptyModel(body);
      && e1 + (d2 - d1) <= |body|
      && EmptyModel(Exchanged(body[..e1], e, body[e1 + (d2 - d1)..])) == t[..d1] + e + t[d2..]
  {
    hide *;
    FirstModelIsLeftmost(body, 0);
    match FirstModel(body, 0)
    case None =>
      NoValue(body, d1);
      CutAgain(body, d1, d2);
      FirstModelElsewhere(body[..d1], body[d1..d2], e, body[d2..]);
      NoValue(Exchanged(body[..d1], e, body[d2..]), 0);
      ExchangedIs(body[..d1], e, body[d2..]);
    case Some(Span(from, to)) =>
      ValueEmptied(body, from, to, d1);
      if d2 + 9 <= from {
        DigitsBeforeValue(body, e, d1, d2, from, to);
      } else {
        DigitsAfterValue(body, e, d1, d2, from, to);
      }
  }

  lemma ExchangedIs(x: string, e: string, y: string)
    ensures Exchanged(x, e, y) == x + e + y
  {
  }

  lemma NoValue(s: string, i: nat)
    requires FirstModel(s, 0).None?
    ensures EmptyModel(s) == s && InBody(s, i) == i
  {
    hide FirstModel;
  }

  lemma ValueEmptied(s: string, from: nat, to: nat, i: nat)
    requires FirstModel(s, 0) == Some(Span(from, to)) && from <= to <= |s|
    ensures EmptyModel(s) == s[..from] + s[to..]
    ensures InBody(s, i) == if from <= i then i - from + to else i
  {
    hide FirstModel;
  }

  lemma DigitsBeforeValue(s: string, e: string, d1: nat, d2: nat, from: nat, to: nat)
    requires FirstModel(s, 0) == Some(Span(from, to)) && from <= to < |s|
    requires d1 <= d2 && d2 + 9 <= from && Digits(e) && Digits((s[..from] + s[to..])[d1..d2])
    ensures EmptyModel(Exchanged(s[..d1], e, s[d2..])) == (s[..from] + s[to..])[..d1] + e + (s[..from] + s[to..])[d2..]
  {
    hide *;
    var t, w, shift := s[..from] + s[to..], Exchanged(s[..d1], e, s[d2..]), |e| - (d2 - d1);
    assert s[d1..d2] == t[d1..d2];
    CutAgain(s, d1, d2);
    FirstModelElsewhere(s[..d1], s[d1..d2], e, s[d2..]);
    EmptiedAfter(s, e, d1, d2, from, to);
    ValueEmptied(w, from + shift, to + shift, 0);
  }

  lemma DigitsAfterValue(s: string, e: string, d1: nat, d2: nat, from: nat, to: nat)
    requires FirstModel(s, 0) == Some(Span(from, to)) && from <= to < |s|
    requires from < d1 <= d2 <= |s| - to + from && Digits(e) && Digits((s[..from] + s[to..])[d1..d2])
    ensures
      var e1, t := d1 - from + to, s[..from] + s[to..];
      EmptyModel(Exchanged(s[..e1], e, s[e1 + (d2 - d1)..])) == t[..d1] + e + t[d2..]
  {
    hide *;
    var e1, t, n := d1 - from + to, s[..from] + s[to..], d2 - d1;
    assert s[e1..e1 + n] == t[d1..d2];
    CutAgain(s, e1, e1 + n);
    FirstModelElsewhere(s[..e1], s[e1..e1 + n], e, s[e1 + n..]);
    EmptiedBefore(s, e, d1, d2, from, to);
    ValueEmptied(Exchanged(s[..e1], e, s[e1 + n..]), from, to, 0);
  }

  lemma CutAgain(s: string, a: nat, b: nat)
    requires a <= b <= |s|
    ensures Exchanged(s[..a], s[a..b], s[b..]) == s
  {
  }

  lemma EmptiedAfter(s: string, e: string, d1: nat, d2: nat, from: nat, to: nat)
    requires d1 <= d2 <= from <= to <= |s|
    ensures
      var w, t, shift := Exchanged(s[..d1], e, s[d2..]), s[..from] + s[to..], |e| - (d2 - d1);
      && from + shift >= 0 && to + shift <= |w|
      && w[..from + shift] + w[to + shift..] == t[..d1] + e + t[d2..]
  {
    var w, t, shift := Exchanged(s[..d1], e, s[d2..]), s[..from] + s[to..], |e| - (d2 - d1);
    assert t[..d1] == s[..d1];
    assert t[d2..] == s[d2..from] + s[to..];
    assert w[..from + shift] == s[..d1] + e + s[d2..from];
    assert w[to + shift..] == s[to..];
  }

  lemma EmptiedBefore(s: string, e: string, d1: nat, d2: nat, from: nat, to: nat)
    requires from <= to <= |s| && from <= d1 <= d2 <= |s| - to + from
    ensures
      var e1 := d1 - from + to;
      var w, t := Exchanged(s[..e1], e, s[e1 + (d2 - d1)..]), s[..from] + s[to..];
      && to <= |w|
      && w[..from] + w[to..] == t[..d1] + e + t[d2..]
  {
    var e1 := d1 - from + to;
    var w, t := Exchanged(s[..e1], e, s[e1 + (d2 - d1)..]), s[..from] + s[to..];
    assert t[..d1] == s[..from] + s[to..e1];
    assert t[d2..] == s[e1 + (d2 - d1)..];
    assert w[..from] == s[..from];
    assert w[to..] == s[to..e1] + e + s[e1 + (d2 - d1)..];
  }

  /** The digits of a field keep clear of the emptied model literal. */
  lemma DigitsClear(t: string, at: nat, q: nat)
    requires FieldAt(t, at).Some? && At(t, q, Model())
    ensures
      var Span(d1, d2) := FieldDigits(t, at);
      && d1 < d2 <= |t| && Digits(t[d1..d2]) && (d2 <= q || q + 10 <= d1)
  {
    hide Tokens, Model, At, FieldAt, FieldDigits;
    NameBeforeDigits(t, at);
    var Span(d1, d2) := FieldDigits(t, at);
    NamesApart(t, d1 - 13, q);
    ModelChars(t, q);
    if d1 <= q {
      DigitsEndInPrefix(t, t, d1, q + 1);
    }
  }

  lemma DigitsOfField(t: string, at: nat)
    requires FieldAt(t, at).Some?
    ensures
      var Span(d1, d2) := FieldDigits(t, at);
      d1 < d2 <= |t| && Digits(t[d1..d2])
  {
    hide Tokens, At, FieldAt, FieldDigits;
    NameBeforeDigits(t, at);
  }

  /** The hashed bytes do not depend on the digits of the field they leave out. */
  lemma DigitsIndependence(body: string, digits: string)
    requires Digits(digits)
    ensures CchPreimage(WithDigits(body, digits)) == CchPreimage(body)
    ensures FirstField(EmptyModel(body), 0).Some? ==>
      exists e1, e2 :: 0 <= e1 < e2 <= |body| && WithDigits(body, digits) == Exchanged(body[..e1], digits, body[e2..])
  {
    hide FirstField, FieldAt, FieldDigits, DropMaxTokens, Digits, InBody, Exchanged, EmptyModel;
    var t := EmptyModel(body);
    FirstFieldIsLeftmost(t, 0);
    if FirstField(t, 0).Some? {
      var at := FirstField(t, 0).value.from;
      var Span(d1, d2) := FieldDigits(t, at);
      DigitsOfField(t, at);
      ClearOfModel(body, at, d1, d2);
      EmptiedElsewhere(body, digits, d1, d2);
      AllDigits(digits);
      MaxTokensIndependence(t, digits);
    }
  }

  lemma AllDigits(digits: string)
    requires Digits(digits)
    ensures digits != "" && forall c :: c in digits ==> IsDigit(c)
  {
  }

  lemma ClearOfModel(body: string, at: nat, d1: nat, d2: nat)
    requires FieldAt(EmptyModel(body), at).Some? && FieldDigits(EmptyModel(body), at) == Span(d1, d2)
    ensures FirstModel(body, 0).Some? ==>
      d2 + 9 <= FirstModel(body, 0).value.from || FirstModel(body, 0).value.from + 1 <= d1
  {
    hide FieldAt, FieldDigits, FirstModel, At, Model, ModelAt;
    FirstModelIsLeftmost(body, 0);
    if FirstModel(body, 0).Some? {
      var Span(from, to) := FirstModel(body, 0).value;
      var t := EmptyModel(body);
      assert t[..from] == body[..from];
      MatchIsLiteral(body, from - 9);
      AtInPrefix(body, t, from - 9, Model(), from);
      DigitsClear(t, at, from - 9);
    }
  }

  // ------------------------------------------------------------ bodies written out

  /** `"model":"` stands at j. */
  predicate ModelNameAt(s: string, j: nat) {
    j + 9 <= |s| && s[j..j + 9] == "\"model\":\""
  }

  /** `"max_tokens":` stands at j. */
  predicate FieldNameAt(s: string, j: nat) {
    j + 13 <= |s| && s[j..j + 13] == "\"max_tokens\":"
  }

  /** One or more digits from i to e. */
  predicate Numeral(s: string, i: nat, e: nat) {
    i < e <= |s| && forall j :: i <= j < e ==> '0' <= s[j] <= '9'
  }

  lemma NamesAre(s: string, j: nat)
    ensures At(s, j, Model()) <==> ModelNameAt(s, j)
    ensures At(s, j, Tokens()) <==> FieldNameAt(s, j)
  {
  }

  /** The first model name in the body, wherever that is, loses its value up to the next quote. */
  lemma ModelEmptied(s: string, n: nat, q: nat)
    requires ModelNameAt(s, n) && forall j: nat :: j < n ==> !ModelNameAt(s, j)
    requires n + 9 <= q < |s| && s[q] == '"' && forall j :: n + 9 <= j < q ==> s[j] != '"'
    ensures EmptyModel(s) == s[..n + 9] + s[q..]
  {
    hide FirstModel, ModelAt, Model, At, ModelNameAt;
    NamesAre(s, n);
    ModelAtIs(s, n, q);
    forall j: nat | j < n
      ensures ModelAt(s, j).None?
    {
      NamesAre(s, j);
      NamelessIsNone(s, j);
    }
    LeftmostIsFirstModel(s, 0, n);
  }

  /** A body without a model name that a quote follows stays as it is. */
  lemma NoModelNothingEmptied(s: string)
    requires forall n: nat, q: nat :: ModelNameAt(s, n) && n + 9 <= q < |s| ==> s[q] != '"'
    ensures EmptyModel(s) == s
  {
    hide FirstModel;
    FirstModelIsLeftmost(s, 0);
    if FirstModel(s, 0).Some? {
      var Span(from, to) := FirstModel(s, 0).value;
      NamesAre(s, from - 9);
    }
  }

  lemma NamelessIsNone(s: string, j: nat)
    ensures !At(s, j, Model()) ==> ModelAt(s, j).None?
    ensures !At(s, j, Tokens()) && (j >= |s| || s[j] != ',' || !At(s, j + 1, Tokens())) ==> FieldAt(s, j).None?
  {
  }

  /** The first field name, when no comma stands before it, leaves with its digits and the comma
      behind them. */
  lemma FieldWithCommaBehind(s: string, n: nat, d: nat)
    requires FieldNameAt(s, n) && forall j: nat :: j < n ==> !FieldNameAt(s, j)
    requires Numeral(s, n + 13, d) && d < |s| && s[d] == ',' && (n > 0 ==> s[n - 1] != ',')
    ensures DropMaxTokens(s) == s[..n] + s[d + 1..]
  {
    hide FirstField, FieldNameAt, DigitsEnd, Tokens, At;
    NamesAre(s, n);
    DigitsEndIs(s, n + 13, d);
    NoFieldInFront(s, n);
    LeftmostIsFirstField(s, 0, n);
  }

  /** With a comma before it the first field name leaves with that one, whatever follows. */
  lemma FieldWithCommaBefore(s: string, n: nat, d: nat)
    requires n > 0 && FieldNameAt(s, n) && forall j: nat :: j < n ==> !FieldNameAt(s, j)
    requires Numeral(s, n + 13, d) && s[n - 1] == ',' && (d < |s| ==> !('0' <= s[d] <= '9'))
    ensures DropMaxTokens(s) == s[..n - 1] + s[d..]
  {
    hide FirstField, FieldNameAt, DigitsEnd, Tokens, At;
    NamesAre(s, n);
    NamesAre(s, n - 1);
    DigitsEndIs(s, n + 13, d);
    NoFieldInFront(s, n - 1);
    LeftmostIsFirstField(s, 0, n - 1);
  }

  lemma NoFieldInFront(s: string, n: nat)
    requires n < |s| && (forall j: nat :: j <= n && FieldNameAt(s, j) ==> j == n && (n > 0 ==> s[n - 1] != ','))
    ensures forall j: nat :: j < n ==> FieldAt(s, j).None?
  {
    hide FieldNameAt, FieldAt, At, Tokens;
    forall j: nat | j < n
      ensures FieldAt(s, j).None?
    {
      NamesAre(s, j);
      NamesAre(s, j + 1);
      NamelessIsNone(s, j);
    }
  }
}
