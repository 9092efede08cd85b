/**
 The bytes behind the cch field (scripts/cc_billing.py): two leftmost, count-one
 substitutions, emptying the first model value and removing the first max_tokens field
 with one adjacent comma. Bytes are written as characters.
 */
module Preimage {
  import opened Options

  /** Part of a text. */
  datatype Span = Span(from: nat, to: nat)

  /** The literal before a model value, its opening quote included. */
  function Model(): (r: string)
    ensures |r| == 9
  {
    "\"model\":\""
  }

  /** The literal before a max_tokens value. */
  function Tokens(): (r: string)
    ensures |r| == 13 && r[0] == '"' && r[12] == ':'
  {
    "\"max_tokens\":"
  }

  predicate At(s: string, i: nat, literal: string) {
    i + |literal| <= |s| && s[i..i + |literal|] == literal
  }

  predicate IsDigit(c: char) {
    '0' <= c <= '9'
  }

  /** The first quote at or after i. */
  function QuoteFrom(s: string, i: nat): (q: Option<nat>)
    ensures q.Some? ==> i <= q.value < |s| && s[q.value] == '"' && forall j :: i <= j < q.value ==> s[j] != '"'
    ensures q.None? ==> forall j :: i <= j < |s| ==> s[j] != '"'
    decreases |s| - i
  {
    if i >= |s| then None else if s[i] == '"' then Some(i) else QuoteFrom(s, i + 1)
  }

  /** Where the run of digits from i ends. */
  function DigitsEnd(s: string, i: nat): (e: nat)
    ensures i <= |s| ==> i <= e <= |s| && (forall j :: i <= j < e ==> IsDigit(s[j])) && (e < |s| ==> !IsDigit(s[e]))
    ensures i > |s| ==> e == i
    decreases |s| - i
  {
    if i < |s| && IsDigit(s[i]) then DigitsEnd(s, i + 1) else i
  }

  // ------------------------------------------------------------ the model value

  /** `("model":")[^"]*(")` at i: where the value starts and where its closing quote is. */
  function ModelAt(s: string, i: nat): Option<Span> {
    if At(s, i, Model()) then
      match QuoteFrom(s, i + 9)
      case None => None
      case Some(q) => Some(Span(i + 9, q))
    else None
  }

  /** The leftmost match from i on. */
  function FirstModel(s: string, i: nat): Option<Span>
    decreases |s| - i
  {
    if i >= |s| then None
    else if ModelAt(s, i).Some? then ModelAt(s, i)
    else FirstModel(s, i + 1)
  }

  function EmptyModel(s: string): string {
    match FirstModel(s, 0)
    case None => s
    case Some(Span(from, to)) => if from <= to <= |s| then s[..from] + s[to..] else s
  }

  lemma ModelAtParts(s: string, i: nat)
    ensures ModelAt(s, i).Some? ==>
      var Span(from, to) := ModelAt(s, i).value;
      && from == i + 9 && from <= to < |s| && s[to] == '"'
      && forall j :: from <= j < to ==> s[j] != '"'
  {
  }

  lemma {:induction false} FirstModelIsLeftmost(s: string, i: nat)
    ensures
      match FirstModel(s, i)
      case None => forall j :: i <= j < |s| ==> ModelAt(s, j).None?
      case Some(Span(from, to)) =>
        && i + 9 <= from <= to < |s| && s[to] == '"'
        && ModelAt(s, from - 9) == Some(Span(from, to))
        && forall j :: i <= j < from - 9 ==> ModelAt(s, j).None?
    decreases |s| - i
  {
    hide ModelAt;
    ModelAtParts(s, i);
    if i < |s| && ModelAt(s, i).None? {
      FirstModelIsLeftmost(s, i + 1);
    }
  }

  lemma {:induction false} LeftmostIsFirstModel(s: string, i: nat, k: nat)
    requires i <= k < |s| && ModelAt(s, k).Some?
    requires forall j :: i <= j < k ==> ModelAt(s, j).None?
    ensures FirstModel(s, i) == ModelAt(s, k)
    decreases k - i
  {
    if i < k {
      LeftmostIsFirstModel(s, i + 1, k);
    }
  }

  /** The body with the first model value replaced. */
  function WithModel(s: string, value: string): string {
    match FirstModel(s, 0)
    case None => s
    case Some(Span(from, to)) => if from <= to <= |s| then s[..from] + value + s[to..] else s
  }

  lemma AtInPrefix(s: string, t: string, i: nat, literal: string, n: nat)
    requires i + |literal| <= n <= |s| && n <= |t| && s[..n] == t[..n]
    ensures At(s, i, literal) == At(t, i, literal)
  {
    assert s[i..i + |literal|] == s[..n][i..i + |literal|];
    assert t[i..i + |literal|] == t[..n][i..i + |literal|];
  }

  /** Replacing the first model value by any quote-free string keeps that match the first. */
  lemma WithModelKeepsFirst(s: string, value: string)
    requires FirstModel(s, 0).Some? && '"' !in value
    ensures
      var Span(from, to) := FirstModel(s, 0).value;
      && from <= to <= |s|
      && FirstModel(WithModel(s, value), 0) == Some(Span(from, from + |value|))
      && WithModel(s, value) == s[..from] + value + s[to..]
  {
    hide *;
    FirstModelIsLeftmost(s, 0);
    var Span(from, to) := FirstModel(s, 0).value;
    WithModelIs(s, value, from, to);
    FirstStaysFirst(s, value, from, to);
  }

  lemma FirstStaysFirst(s: string, value: string, from: nat, to: nat)
    requires 9 <= from <= to < |s| && s[to] == '"' && '"' !in value
    requires ModelAt(s, from - 9) == Some(Span(from, to)) && forall j :: 0 <= j < from - 9 ==> ModelAt(s, j).None?
    ensures FirstModel(s[..from] + value + s[to..], 0) == Some(Span(from, from + |value|))
  {
    hide *;
    var t := s[..from] + value + s[to..];
    assert t[..from] == s[..from];
    forall j | 0 <= j < from - 9
      ensures ModelAt(t, j).None?
    {
      NoModelBefore(s, t, j, from, to);
    }
    SameModelStart(s, t, value, from, to);
    LeftmostIsFirstModel(t, 0, from - 9);
  }

  lemma WithModelIs(s: string, value: string, from: nat, to: nat)
    requires FirstModel(s, 0) == Some(Span(from, to)) && from <= to <= |s|
    ensures WithModel(s, value) == s[..from] + value + s[to..]
  {
    hide FirstModel;
  }

  lemma NoModelBefore(s: string, t: string, j: nat, from: nat, to: nat)
    requires j + 9 < from <= to < |s| && from <= |t| && s[..from] == t[..from]
    requires ModelAt(s, j).None? && s[to] == '"'
    ensures ModelAt(t, j).None?
  {
    hide Model;
    AtInPrefix(s, t, j, Model(), from);
  }

  lemma SameModelStart(s: string, t: string, value: string, from: nat, to: nat)
    requires 9 <= from <= to < |s| && t == s[..from] + value + s[to..] && '"' !in value
    requires ModelAt(s, from - 9) == Some(Span(from, to))
    ensures ModelAt(t, from - 9) == Some(Span(from, from + |value|))
  {
    hide Model;
    assert t[..from] == s[..from];
    assert t[from + |value|] == s[to] == '"';
    AtInPrefix(s, t, from - 9, Model(), from);
    assert forall j :: from <= j < from + |value| ==> t[j] == value[j - from] && value[j - from] in value;
  }

  /** The hashed bytes do not depend on the first model value. */
  lemma ModelIndependence(body: string, value: string)
    requires '"' !in value
    ensures EmptyModel(WithModel(body, value)) == EmptyModel(body)
    ensures CchPreimage(WithModel(body, value)) == CchPreimage(body)
  {
    if FirstModel(body, 0).Some? {
      WithModelKeepsFirst(body, value);
      var Span(from, to) := FirstModel(body, 0).value;
      var t := WithModel(body, value);
      assert t[..from] == body[..from];
      assert t[from + |value|..] == body[to..];
    }
  }

  // ------------------------------------------------------------ the max_tokens field

  /** `"max_tokens":\d+,|,"max_tokens":\d+` at i: where the match ends. The digits are the
      whole run: fewer would leave a digit where the comma has to be. */
  function FieldAt(s: string, i: nat): Option<nat> {
    var direct := DigitsEnd(s, i + 13);
    var after := DigitsEnd(s, i + 1 + 13);
    if At(s, i, Tokens()) && direct > i + 13 && direct < |s| && s[direct] == ',' then Some(direct + 1)
    else if i < |s| && s[i] == ',' && At(s, i + 1, Tokens()) && after > i + 1 + 13 then Some(after)
    else None
  }

  function FirstField(s: string, i: nat): Option<Span>
    decreases |s| - i
  {
    if i >= |s| then None
    else if FieldAt(s, i).Some? then Some(Span(i, FieldAt(s, i).value))
    else FirstField(s, i + 1)
  }

  function DropMaxTokens(s: string): string {
    match FirstField(s, 0)
    case None => s
    case Some(Span(from, to)) => if from <= to <= |s| then s[..from] + s[to..] else s
  }

  /** `cch_preimage`. */
  function CchPreimage(body: string): string {
    DropMaxTokens(EmptyModel(body))
  }

  lemma FieldAtInside(s: string, i: nat)
    ensures FieldAt(s, i).Some? ==> i < FieldAt(s, i).value <= |s|
  {
    hide Tokens, At;
  }

  lemma {:induction false} FirstFieldIsLeftmost(s: string, i: nat)
    ensures
      match FirstField(s, i)
      case None => forall j :: i <= j < |s| ==> FieldAt(s, j).None?
      case Some(Span(from, to)) =>
        && i <= from < to <= |s| && FieldAt(s, from) == Some(to)
        && forall j :: i <= j < from ==> FieldAt(s, j).None?
    decreases |s| - i
  {
    hide FieldAt;
    FieldAtInside(s, i);
    if i < |s| && FieldAt(s, i).None? {
      FirstFieldIsLeftmost(s, i + 1);
    }
  }

  lemma {:induction false} LeftmostIsFirstField(s: string, i: nat, k: nat)
    requires i <= k < |s| && FieldAt(s, k).Some?
    requires forall j :: i <= j < k ==> FieldAt(s, j).None?
    ensures FirstField(s, i) == Some(Span(k, FieldAt(s, k).value))
    decreases k - i
  {
    if i < k {
      LeftmostIsFirstField(s, i + 1, k);
    }
  }

  /** A max_tokens field whose name is at p, with a comma on either side. */
  predicate HasComma(s: string, p: nat) {
    var d := DigitsEnd(s, p + 13);
    && At(s, p, Tokens()) && d > p + 13
    && ((d < |s| && s[d] == ',') || (p > 0 && s[p - 1] == ','))
  }

  /** One field with one of its commas: the comma after it when it is taken from its own
      start, else the comma before it. */
  ghost predicate IsFieldWithComma(piece: string) {
    exists digits :: digits != "" && (forall c :: c in digits ==> IsDigit(c))
                     && (piece == Tokens() + digits + "," || piece == "," + Tokens() + digits)
  }

  lemma FieldAtIsField(s: string, i: nat)
    requires FieldAt(s, i).Some?
    ensures i < FieldAt(s, i).value <= |s|
    ensures IsFieldWithComma(s[i..FieldAt(s, i).value])
    ensures HasComma(s, i) || HasComma(s, i + 1)
  {
    hide Tokens, IsFieldWithComma;
    var to := FieldAt(s, i).value;
    var d := DigitsEnd(s, i + 13);
    if At(s, i, Tokens()) && d > i + 13 && d < |s| && s[d] == ',' {
      CommaAfter(s, i, d);
    } else {
      CommaBefore(s, i, to);
    }
  }

  lemma CommaAfter(s: string, i: nat, d: nat)
    requires At(s, i, Tokens()) && i + 13 < d < |s| && s[d] == ','
    requires forall j :: i + 13 <= j < d ==> IsDigit(s[j])
    ensures IsFieldWithComma(s[i..d + 1])
  {
    hide Tokens;
    var digits := s[i + 13..d];
    assert s[i..d + 1] == Tokens() + digits + ",";
  }

  lemma CommaBefore(s: string, i: nat, d: nat)
    requires i + 14 < d <= |s| && s[i] == ',' && At(s, i + 1, Tokens())
    requires forall j :: i + 14 <= j < d ==> IsDigit(s[j])
    ensures IsFieldWithComma(s[i..d])
  {
    hide Tokens;
    var digits := s[i + 14..d];
    assert s[i..d] == s[i..i + 1] + s[i + 1..i + 14] + s[i + 14..d];
    assert s[i..d] == "," + Tokens() + digits;
  }

  lemma CommaFieldIsFound(s: string, p: nat)
    requires HasComma(s, p)
    ensures p < |s| && (FieldAt(s, p).Some? || (p > 0 && FieldAt(s, p - 1).Some?))
  {
  }

  /** When a max_tokens field with an adjacent comma exists, exactly one leaves, with exactly
      one comma, and it is the leftmost; otherwise nothing changes. */
  lemma OneFieldRemoved(s: string)
    ensures (exists p: nat :: HasComma(s, p)) <==> FirstField(s, 0).Some?
    ensures FirstField(s, 0).None? ==> DropMaxTokens(s) == s
    ensures FirstField(s, 0).Some? ==>
      var Span(from, to) := FirstField(s, 0).value;
      && from < to <= |s|
      && DropMaxTokens(s) == s[..from] + s[to..]
      && IsFieldWithComma(s[from..to])
      && forall j :: 0 <= j < from ==> FieldAt(s, j).None?
  {
    FirstFieldIsLeftmost(s, 0);
    if FirstField(s, 0).Some? {
      FieldAtIsField(s, FirstField(s, 0).value.from);
    } else if p: nat :| HasComma(s, p) {
      CommaFieldIsFound(s, p);
    }
  }

  /** Where the digits of the removed field are. */
  function FieldDigits(s: string, from: nat): Span
    requires FieldAt(s, from).Some?
  {
    var direct := DigitsEnd(s, from + 13);
    if At(s, from, Tokens()) && direct > from + 13 && direct < |s| && s[direct] == ','
    then Span(from + 13, direct)
    else Span(from + 1 + 13, DigitsEnd(s, from + 1 + 13))
  }

  /** A run of digits that ends inside a common prefix ends at the same place. */
  lemma {:induction false} DigitsEndInPrefix(s: string, t: string, i: nat, n: nat)
    requires i < n <= |s| && n <= |t| && s[..n] == t[..n] && !IsDigit(s[n - 1])
    ensures DigitsEnd(s, i) == DigitsEnd(t, i) < n
    decreases n - i
  {
    assert s[i] == s[..n][i] == t[..n][i] == t[i];
    if IsDigit(s[i]) {
      DigitsEndInPrefix(s, t, i + 1, n);
    }
  }

  /** Two texts that agree up to the digits of a field agree on every match before it. */
  lemma FieldAtInPrefix(s: string, t: string, k: nat, n: nat)
    requires k + 1 + 13 < n <= |s| && n <= |t| && s[..n] == t[..n] && !IsDigit(s[n - 1])
    ensures FieldAt(s, k) == FieldAt(t, k)
  {
    hide Tokens, DigitsEnd;
    AtInPrefix(s, t, k, Tokens(), n);
    AtInPrefix(s, t, k + 1, Tokens(), n);
    DigitsEndInPrefix(s, t, k + 13, n);
    DigitsEndInPrefix(s, t, k + 1 + 13, n);
    var d := DigitsEnd(s, k + 13);
    assert s[d] == s[..n][d] == t[..n][d] == t[d];
    assert s[k] == s[..n][k] == t[..n][k] == t[k];
  }

  lemma {:induction false} DigitsEndIs(s: string, i: nat, e: nat)
    requires i <= e <= |s| && (forall j :: i <= j < e ==> IsDigit(s[j])) && (e < |s| ==> !IsDigit(s[e]))
    ensures DigitsEnd(s, i) == e
  {
  }

  /** The hashed bytes do not depend on the value of the max_tokens field they leave out. */
  lemma MaxTokensIndependence(s: string, digits: string)
    requires FirstField(s, 0).Some? && digits != "" && forall c :: c in digits ==> IsDigit(c)
    ensures
      var Span(from, to) := FirstField(s, 0).value;
      && FieldAt(s, from).Some?
      && var Span(d1, d2) := FieldDigits(s, from);
         && d1 <= d2 <= |s|
         && DropMaxTokens(s[..d1] + digits + s[d2..]) == DropMaxTokens(s)
  {
    hide *;
    FirstFieldIsLeftmost(s, 0);
    var Span(from, to) := FirstField(s, 0).value;
    NameBeforeDigits(s, from);
    var Span(d1, d2) := FieldDigits(s, from);
    SplicedField(s, digits, from, to, d1, d2);
    SplicedRest(s, digits, d1, d2, from, to);
    DropIs(s, from, to);
    DropIs(s[..d1] + digits + s[d2..], from, to - d2 + d1 + |digits|);
  }

  lemma DropIs(s: string, from: nat, to: nat)
    requires FirstField(s, 0) == Some(Span(from, to)) && from <= to <= |s|
    ensures DropMaxTokens(s) == s[..from] + s[to..]
  {
    hide FirstField;
  }

  /** With other digits the first field is the same field. */
  lemma SplicedField(s: string, digits: string, from: nat, to: nat, d1: nat, d2: nat)
    requires FieldAt(s, from) == Some(to) && FieldDigits(s, from) == Span(d1, d2) && d1 <= d2 <= to
    requires from <= d1 && d2 <= |s| && DigitsEnd(s, d1) == d2
    requires forall k :: 0 <= k < from ==> FieldAt(s, k).None?
    requires digits != "" && forall c :: c in digits ==> IsDigit(c)
    ensures FirstField(s[..d1] + digits + s[d2..], 0) == Some(Span(from, to - d2 + d1 + |digits|))
  {
    hide *;
    var t := s[..d1] + digits + s[d2..];
    Spliced(s, digits, d1, d2);
    forall k | 0 <= k < from
      ensures FieldAt(t, k).None?
    {
      EarlierMatch(s, t, from, k, d1, d2);
    }
    SameFieldMatch(s, t, from, digits, d1, d2);
    LeftmostIsFirstField(t, 0, from);
  }

  /** Other digits in place of a whole run of digits are again a whole run. */
  lemma Spliced(s: string, digits: string, d1: nat, d2: nat)
    requires d1 <= d2 <= |s| && DigitsEnd(s, d1) == d2
    requires forall c :: c in digits ==> IsDigit(c)
    ensures var t := s[..d1] + digits + s[d2..]; t[..d1] == s[..d1] && DigitsEnd(t, d1) == d1 + |digits|
  {
    hide DigitsEnd;
    DigitsStop(s, d1);
    var t := s[..d1] + digits + s[d2..];
    var e := d1 + |digits|;
    forall j | d1 <= j < e
      ensures IsDigit(t[j])
    {
      assert t[j] == digits[j - d1] && digits[j - d1] in digits;
    }
    assert e < |t| ==> t[e] == s[d2];
    DigitsEndIs(t, d1, e);
  }

  lemma SplicedRest(s: string, digits: string, d1: nat, d2: nat, from: nat, to: nat)
    requires from <= d1 <= d2 <= to <= |s|
    ensures
      var t, to' := s[..d1] + digits + s[d2..], to - d2 + d1 + |digits|;
      && to' <= |t| && t[..from] == s[..from] && t[to'..] == s[to..]
  {
    var t, e := s[..d1] + digits + s[d2..], d1 + |digits|;
    assert t[..from] == s[..d1][..from] == s[..from];
    assert t[e..] == s[d2..];
    assert t[to - d2 + e..] == t[e..][to - d2..];
    assert s[d2..][to - d2..] == s[to..];
  }

  lemma DigitsStop(s: string, i: nat)
    requires i <= |s|
    ensures DigitsEnd(s, i) < |s| ==> !IsDigit(s[DigitsEnd(s, i)])
  {
  }

  lemma NameBeforeDigits(s: string, from: nat)
    requires FieldAt(s, from).Some?
    ensures
      var Span(d1, d2) := FieldDigits(s, from);
      && 13 <= d1 < d2 <= |s| && At(s, d1 - 13, Tokens()) && s[d1 - 1] == ':'
      && from <= d1 - 13 <= from + 1
      && DigitsEnd(s, d1) == d2
      && (d1 == from + 13 ==> d2 < |s| && s[d2] == ',' && FieldAt(s, from) == Some(d2 + 1))
      && (d1 == from + 14 ==> s[from] == ',' && FieldAt(s, from) == Some(d2) && !At(s, from, Tokens()))
  {
    hide Tokens, DigitsEnd, At;
    var Span(d1, d2) := FieldDigits(s, from);
    NameEnds(s, d1 - 13);
    if At(s, from, Tokens()) {
      NameEnds(s, from);
    }
  }

  lemma NameEnds(s: string, p: nat)
    requires At(s, p, Tokens())
    ensures s[p] == '"' && s[p + 12] == ':'
  {
    hide Tokens;
    var name := s[p..p + 13];
    assert name[0] == s[p] && name[12] == s[p + 12];
  }

  /** No match before the field's first character appears. */
  lemma EarlierMatch(s: string, t: string, from: nat, k: nat, d1: nat, d2: nat)
    requires FieldAt(s, from).Some? && k < from && FieldAt(s, k).None? && FieldDigits(s, from) == Span(d1, d2)
    requires d1 <= |s| && d1 <= |t| && t[..d1] == s[..d1] && DigitsEnd(t, d1) > d1
    ensures FieldAt(t, k).None?
  {
    hide FieldAt, FieldDigits, At, DigitsEnd, Tokens;
    NameBeforeDigits(s, from);
    if k + 14 < d1 {
      FieldAtInPrefix(s, t, k, d1);
    } else {
      NameStart(s, t, from, k, d1, d2);
    }
  }

  /** At the character before a field's name there was no comma, so there is none now. */
  lemma NameStart(s: string, t: string, from: nat, k: nat, d1: nat, d2: nat)
    requires k + 1 == from && d1 == from + 13 && d1 < d2 <= |s| && d1 <= |t| && t[..d1] == s[..d1]
    requires At(s, from, Tokens()) && DigitsEnd(s, d1) == d2 && s[d1 - 1] == ':'
    requires FieldAt(s, k).None?
    ensures FieldAt(t, k).None?
  {
    hide Tokens, DigitsEnd, At;
    AtInPrefix(s, t, k, Tokens(), d1);
    DigitsEndInPrefix(s, t, k + 13, d1);
    var d := DigitsEnd(s, k + 13);
    assert s[k] == s[..d1][k] == t[..d1][k] == t[k];
    assert s[d] == s[..d1][d] == t[..d1][d] == t[d];
  }

  lemma SameFieldMatch(s: string, t: string, from: nat, digits: string, d1: nat, d2: nat)
    requires FieldAt(s, from).Some? && digits != "" && FieldDigits(s, from) == Span(d1, d2)
    requires d1 <= d2 <= |s| && t == s[..d1] + digits + s[d2..] && d2 <= FieldAt(s, from).value
    requires DigitsEnd(t, d1) == d1 + |digits|
    ensures FieldAt(t, from) == Some(FieldAt(s, from).value - d2 + d1 + |digits|)
  {
    hide Tokens, DigitsEnd;
    NameBeforeDigits(s, from);
    assert t[..d1] == s[..d1];
    AtInPrefix(s, t, d1 - 13, Tokens(), d1);
    if d1 == from + 13 {
      assert t[d1 + |digits|] == s[d2];
    } else {
      AtInPrefix(s, t, from, Tokens(), d1);
      assert t[from] == s[..d1][from] == s[from];
    }
  }
}
