/** The encoding of the beta list pin of scripts/client_drift.py: one quoted name a line. */
module BetaList {
  import opened Text

  /** `f'\t"{value}",'`. */
  function Line(value: string): string {
    "\t\"" + value + "\","
  }

  function Lines(values: seq<string>): (r: seq<string>)
    ensures |r| == |values|
  {
    if values == [] then [] else [Line(values[0])] + Lines(values[1..])
  }

  /** `encode`. */
  function Encode(values: seq<string>): string {
    Join('\n', Lines(values))
  }

  /** How many characters from the front are not a quote. */
  function Unquoted(s: string): (n: nat)
    ensures n <= |s| && (forall i :: 0 <= i < n ==> s[i] != '"') && (n < |s| ==> s[n] == '"')
  {
    if s == "" || s[0] == '"' then 0 else 1 + Unquoted(s[1..])
  }

  /** `decode`: re.findall of "([^"]+)", leftmost and not overlapping. */
  function Decode(s: string): seq<string>
    decreases |s|
  {
    if s == "" then []
    else
      var n := Unquoted(s[1..]);
      if s[0] == '"' && n > 0 && 1 + n < |s| then [s[1..1 + n]] + Decode(s[2 + n..])
      else Decode(s[1..])
  }

  lemma UnquotedIs(value: string, rest: string)
    requires '"' !in value
    ensures Unquoted(value + "\"" + rest) == |value|
  {
    var s := value + "\"" + rest;
    var n := Unquoted(s);
    assert s[|value|] == '"';
    assert forall i :: 0 <= i < |value| ==> s[i] == value[i];
    assert n >= |value|;
    assert n <= |value|;
  }

  /** A quoted name, whatever follows. */
  lemma DecodeLine(value: string, rest: string)
    requires value != "" && '"' !in value
    ensures Decode(Line(value) + rest) == [value] + Decode("," + rest)
  {
    var t := "\"" + value + "\"," + rest;
    assert Line(value) + rest == ['\t'] + t && t == ['"'] + (value + "\"" + ("," + rest));
    DecodeSkips('\t', t);
    UnquotedIs(value, "," + rest);
    QuotedParts(value, "," + rest);
  }

  /** A quoted name at the front. */
  lemma QuotedParts(value: string, rest: string)
    requires value != "" && Unquoted(value + "\"" + rest) == |value|
    ensures Decode(['"'] + (value + "\"" + rest)) == [value] + Decode(rest)
  {
    var s := ['"'] + (value + "\"" + rest);
    assert s[1..] == value + "\"" + rest;
    assert s[1..1 + |value|] == value && s[2 + |value|..] == rest;
  }

  lemma DecodeSkips(c: char, rest: string)
    requires c != '"'
    ensures Decode([c] + rest) == Decode(rest)
  {
    assert ([c] + rest)[1..] == rest;
  }

  /** Reading back what was written, for names that are not empty and hold no quote. */
  lemma {:induction false} RoundTrip(values: seq<string>)
    requires forall i :: 0 <= i < |values| ==> values[i] != "" && '"' !in values[i]
    ensures Decode(Encode(values)) == values
  {
    if values != [] {
      var v, more := values[0], Encode(values[1..]);
      RoundTrip(values[1..]);
      if |values| == 1 {
        assert Encode(values) == Line(v) + "";
        DecodeLine(v, "");
        DecodeSkips(',', "");
        assert "," + "" == [','] + "";
      } else {
        assert Encode(values) == Line(v) + ("\n" + more);
        DecodeLine(v, "\n" + more);
        assert "," + ("\n" + more) == [','] + (['\n'] + more);
        DecodeSkips(',', ['\n'] + more);
        DecodeSkips('\n', more);
      }
      assert values == [v] + values[1..];
    }
  }

  /** Two names as they stand in the file: a tab, quotes and a comma for each, on lines of their own. */
  lemma TwoLines(a: string, b: string)
    ensures Encode([a, b]) == "\t\"" + a + "\",\n\t\"" + b + "\","
  {
    assert [a, b][1..] == [b] && [b][1..] == [];
    assert Lines([b]) == [Line(b)] && Lines([a, b]) == [Line(a), Line(b)];
    assert [Line(a), Line(b)][1..] == [Line(b)];
    assert Join('\n', [Line(b)]) == Line(b);
    assert Encode([a, b]) == Line(a) + ['\n'] + Line(b);
  }
}
