/**
 The value patterns of the registry, each against the texts its regular expression describes.
 */
module PinPatterns {
  import opened PinTokens
  import opened PinRegistry

  /** One or more digits. */
  ghost predicate Number(s: string) {
    s != "" && forall c :: c in s ==> c in "0123456789"
  }

  /** Exactly n characters, all of them among these. */
  ghost predicate Made(s: string, n: nat, of: string) {
    |s| == n && forall c :: c in s ==> c in of
  }

  lemma NumberIff(s: string)
    ensures Number(s) <==> Digits(s)
  {
    assert forall i :: 0 <= i < |s| ==> s[i] in s;
  }

  /** A version is three numbers with dots between them. */
  lemma VersionIff(s: string)
    ensures IsVersion(s) <==>
      exists a, b, c :: Number(a) && Number(b) && Number(c) && s == a + "." + b + "." + c
  {
    if IsVersion(s) {
      var i: nat, j: nat :| i < j < |s| && VersionAt(s, i, j);
      NumberIff(s[..i]);
      NumberIff(s[i + 1..j]);
      NumberIff(s[j + 1..]);
      assert s == s[..i] + "." + s[i + 1..j] + "." + s[j + 1..];
    }
    forall a, b, c | Number(a) && Number(b) && Number(c) && s == a + "." + b + "." + c
      ensures IsVersion(s)
    {
      NumberIff(a);
      NumberIff(b);
      NumberIff(c);
      var i, j := |a|, |a| + 1 + |b|;
      assert s[..i] == a && s[i + 1..j] == b && s[j + 1..] == c;
      assert VersionAt(s, i, j);
    }
  }

  /** A tagged version is a v and a version. */
  lemma TaggedIff(s: string)
    ensures IsTagged(s) <==> exists v :: IsVersion(v) && s == "v" + v
  {
    if IsTagged(s) {
      assert s == "v" + s[1..];
    }
    forall v | IsVersion(v) && s == "v" + v
      ensures IsTagged(s)
    {
      assert s[1..] == v;
    }
  }

  lemma MadeAt(s: string, n: nat, of: string)
    ensures Made(s, n, of) <==> |s| == n && forall k :: 0 <= k < |s| ==> s[k] in of
  {
    assert forall k :: 0 <= k < |s| ==> s[k] in s;
  }

  lemma HexAlphabet(c: char)
    ensures c in "0123456789abcdef" <==> LowerHex(c)
  {
  }

  lemma HeadAlphabet(c: char)
    ensures c in "0123456789abcdefghijklmnopqrstuvwxyz" <==> Digit(c) || 'a' <= c <= 'z'
  {
  }

  lemma MadeOfHex(s: string, n: nat)
    ensures Made(s, n, "0123456789abcdef") <==> |s| == n && AllOf(s, LowerHex)
  {
    MadeAt(s, n, "0123456789abcdef");
    forall c: char
      ensures c in "0123456789abcdef" <==> LowerHex(c)
    {
      HexAlphabet(c);
    }
  }

  lemma Ja3Iff(s: string)
    ensures IsJa3(s) <==> Made(s, 32, "0123456789abcdef")
  {
    MadeOfHex(s, 32);
  }

  lemma MadeOfHead(s: string, n: nat)
    ensures Made(s, n, "0123456789abcdefghijklmnopqrstuvwxyz") <==>
      |s| == n && forall k :: 0 <= k < |s| ==> Digit(s[k]) || 'a' <= s[k] <= 'z'
  {
    MadeAt(s, n, "0123456789abcdefghijklmnopqrstuvwxyz");
    forall c: char
      ensures c in "0123456789abcdefghijklmnopqrstuvwxyz" <==> Digit(c) || 'a' <= c <= 'z'
    {
      HeadAlphabet(c);
    }
  }

  /** The three parts of a JA4. */
  ghost predicate Ja4Parts(s: string, p: char, a: string, b: string, c: string) {
    && p in "tqd"
    && Made(a, 9, "0123456789abcdefghijklmnopqrstuvwxyz")
    && Made(b, 12, "0123456789abcdef") && Made(c, 12, "0123456789abcdef")
    && s == [p] + a + "_" + b + "_" + c
  }

  lemma Ja4Iff(s: string)
    ensures IsJa4(s) <==> exists p, a, b, c :: Ja4Parts(s, p, a, b, c)
  {
    hide Made;
    if IsJa4(s) {
      var a, b, c := s[1..10], s[11..23], s[24..];
      MadeOfHead(a, 9);
      MadeOfHex(b, 12);
      MadeOfHex(c, 12);
      assert s == [s[0]] + a + "_" + b + "_" + c;
      assert Ja4Parts(s, s[0], a, b, c);
    }
    forall p, a, b, c | Ja4Parts(s, p, a, b, c)
      ensures IsJa4(s)
    {
      MadeOfHead(a, 9);
      MadeOfHex(b, 12);
      MadeOfHex(c, 12);
      assert forall k :: 1 <= k < 10 ==> s[k] == a[k - 1];
      assert forall k :: 11 <= k < 23 ==> s[k] == b[k - 11];
      assert forall k :: 24 <= k < 36 ==> s[k] == c[k - 24];
    }
  }

  /** The date of an advisor beta: four digits, two and two. */
  lemma AdvisorIff(s: string)
    ensures IsAdvisor(s) <==> exists y, m, d :: AdvisorParts(s, y, m, d)
  {
    hide Made;
    if IsAdvisor(s) {
      var y, m, d := s[13..17], s[18..20], s[21..];
      MadeOfDigits(y, 4);
      MadeOfDigits(m, 2);
      MadeOfDigits(d, 2);
      assert s[..13] == "advisor-tool-";
      assert s == s[..13] + y + "-" + m + "-" + d;
      assert AdvisorParts(s, y, m, d);
    }
    forall y, m, d | AdvisorParts(s, y, m, d)
      ensures IsAdvisor(s)
    {
      MadeOfDigits(y, 4);
      MadeOfDigits(m, 2);
      MadeOfDigits(d, 2);
      assert forall k :: 13 <= k < 17 ==> s[k] == y[k - 13];
      assert forall k :: 18 <= k < 20 ==> s[k] == m[k - 18];
      assert forall k :: 21 <= k < 23 ==> s[k] == d[k - 21];
    }
  }

  ghost predicate AdvisorParts(s: string, y: string, m: string, d: string) {
    && Made(y, 4, "0123456789") && Made(m, 2, "0123456789") && Made(d, 2, "0123456789")
    && s == "advisor-tool-" + y + "-" + m + "-" + d
  }

  lemma MadeOfDigits(s: string, n: nat)
    ensures Made(s, n, "0123456789") <==> |s| == n && AllOf(s, Digit)
  {
    MadeAt(s, n, "0123456789");
  }

  /** A baseline is a path of these characters below .reference, with the ending .jsonl. */
  lemma BaselineIff(s: string)
    ensures IsBaseline(s) <==> exists name :: name != "" && AllOf(name, BaselineChar) && s == ".reference/" + name + ".jsonl"
  {
    if IsBaseline(s) {
      var name := s[11..|s| - 6];
      assert s[..11] == ".reference/" && s[|s| - 6..] == ".jsonl";
      assert s == s[..11] + name + s[|s| - 6..];
    }
    forall name | name != "" && AllOf(name, BaselineChar) && s == ".reference/" + name + ".jsonl"
      ensures IsBaseline(s)
    {
      assert s[11..|s| - 6] == name;
      assert s[|s| - 6..] == ".jsonl";
    }
  }

  /** `[A-Za-z0-9_./-]`. */
  lemma BaselineCharIff(c: char)
    ensures BaselineChar(c) <==>
      || c in "ABCDEFGHIJKLMNOPQRSTUVWXYZ" || c in "abcdefghijklmnopqrstuvwxyz" || c in "0123456789" || c in "_./-"
  {
    CapitalAlphabet(c);
    SmallAlphabet(c);
  }

  lemma CapitalAlphabet(c: char)
    ensures c in "ABCDEFGHIJKLMNOPQRSTUVWXYZ" <==> 'A' <= c <= 'Z'
  {
  }

  lemma SmallAlphabet(c: char)
    ensures c in "abcdefghijklmnopqrstuvwxyz" <==> 'a' <= c <= 'z'
  {
  }
}
