/**
 * The last step of the URL-parameter cleaner: once the HTML serialiser has
 * re-encoded the stripped text in xhtml mode, a chain of five literal
 * replacements turns the character entities back into the characters they
 * stand for. `&amp;` is undone last, so an escaped entity is decoded only once.
 */
module FixedUrlXssFilter {

  /**
   * One left-to-right, non-overlapping pass replacing every occurrence of the
   * literal `pat` by `rep`. Scanning resumes after each replaced occurrence,
   * so inserted text is never scanned again by the same pass.
   */
  function ReplaceAll(s: string, pat: string, rep: string): (r: string)
    requires pat != []
    ensures |rep| <= |pat| ==> |r| <= |s|
    ensures forall c :: c in r ==> c in s || c in rep
    decreases |s|
  {
    if s == [] then []
    else if pat <= s then rep + ReplaceAll(s[|pat|..], pat, rep)
    else [s[0]] + ReplaceAll(s[1..], pat, rep)
  }

  /** The chain applied to the serialiser's output: lt, gt, apos, quot, and amp last. */
  function Unescape(sanitized: string): (r: string)
    ensures |r| <= |sanitized|
  {
    ReplaceAll(ReplaceAll(ReplaceAll(ReplaceAll(ReplaceAll(
      sanitized, "&lt;", "<"), "&gt;", ">"), "&apos;", "'"), "&quot;", "\""), "&amp;", "&")
  }

  // ---------------------------------------------------------------------------
  // The encoding the chain undoes

  /** The xhtml entity for each of the five critical characters; any other character stands for itself. */
  function EscapeChar(c: char): string
  {
    match c
    case '<' => "&lt;"
    case '>' => "&gt;"
    case '\'' => "&apos;"
    case '"' => "&quot;"
    case '&' => "&amp;"
    case _ => [c]
  }

  /** Encoding only `<`, `>`, `'`, `"` and `&` as xhtml entities. */
  function Escape(s: string): (r: string)
    ensures |s| <= |r|
    ensures forall i :: 0 <= i < |r| ==> r[i] != '<' && r[i] != '>' && r[i] != '\'' && r[i] != '"'
  {
    if s == [] then [] else EscapeChar(s[0]) + Escape(s[1..])
  }

  // ---------------------------------------------------------------------------
  // The chain, stage by stage

  /** The entity name the k-th replacement of the chain decodes. */
  function Name(k: nat): string
    requires k < 5
  {
    if k == 0 then "lt" else if k == 1 then "gt" else if k == 2 then "apos" else if k == 3 then "quot" else "amp"
  }

  /** An entity reference: `&`, the name, `;`. */
  function Ref(name: string): string
  {
    "&" + name + ";"
  }

  /** The pattern of the k-th replacement of the chain. */
  function Pat(k: nat): string
    requires k < 5
  {
    if k == 0 then "&lt;" else if k == 1 then "&gt;" else if k == 2 then "&apos;" else if k == 3 then "&quot;" else "&amp;"
  }

  /** The character the k-th replacement puts in place of its pattern. */
  function Sym(k: nat): char
    requires k < 5
  {
    if k == 0 then '<' else if k == 1 then '>' else if k == 2 then '\'' else if k == 3 then '"' else '&'
  }

  /** The position of a critical character's replacement in the chain; 5 for any other character. */
  function Rank(c: char): nat
  {
    if c == '<' then 0 else if c == '>' then 1 else if c == '\'' then 2 else if c == '"' then 3 else if c == '&' then 4 else 5
  }

  /** A character of the original text after the first k replacements ran on its encoding. */
  function PartChar(c: char, k: nat): string
  {
    if Rank(c) < k then [c] else EscapeChar(c)
  }

  /**
   * The serialiser's output seen piece by piece: a character of the text, or
   * a reference to an entity other than the five, which the serialiser writes
   * out as it is.
   */
  datatype Piece = Text(c: char) | Foreign(name: string)

  /** A name that makes `&name;` a single reference none of the five replacements matches. */
  predicate ForeignName(n: string)
  {
    '&' !in n && ';' !in n && forall k :: 0 <= k < 5 ==> n != Name(k)
  }

  predicate ForeignNames(ps: seq<Piece>)
  {
    forall i :: 0 <= i < |ps| && ps[i].Foreign? ==> ForeignName(ps[i].name)
  }

  /** The text as the serialiser writes it: the five critical characters encoded, other references verbatim. */
  function Encode(ps: seq<Piece>): string
  {
    if ps == [] then []
    else (match ps[0] case Text(c) => EscapeChar(c) case Foreign(n) => Ref(n)) + Encode(ps[1..])
  }

  /** The text the pieces stand for: each character itself, each other reference verbatim. */
  function Meaning(ps: seq<Piece>): string
  {
    if ps == [] then []
    else (match ps[0] case Text(c) => [c] case Foreign(n) => Ref(n)) + Meaning(ps[1..])
  }

  /** A string as pieces of plain text. */
  function Texts(s: string): (r: seq<Piece>)
    ensures |r| == |s| && forall i :: 0 <= i < |r| ==> r[i] == Text(s[i])
  {
    if s == [] then [] else [Text(s[0])] + Texts(s[1..])
  }

  /** A piece after the first k replacements ran on its encoding. */
  function PieceAt(p: Piece, k: nat): string
  {
    match p
    case Text(c) => PartChar(c, k)
    case Foreign(n) => Ref(n)
  }

  /** The encoded pieces after the first k replacements of the chain. */
  function Stage(ps: seq<Piece>, k: nat): string
  {
    if ps == [] then [] else PieceAt(ps[0], k) + Stage(ps[1..], k)
  }

  /** Each pattern is the reference to its entity name, and no name contains `;`. */
  lemma PatRef(k: nat)
    requires k < 5
    ensures Pat(k) == Ref(Name(k)) && ';' !in Name(k)
  {
  }

  lemma EscapeCharRank(c: char)
    ensures Rank(c) < 5 ==> EscapeChar(c) == Pat(Rank(c)) && Sym(Rank(c)) == c
    ensures Rank(c) == 5 ==> EscapeChar(c) == [c] && c != '&'
  {
  }

  /** A replaced occurrence is consumed: scanning resumes after it, never inside the inserted text. */
  lemma MatchConsumed(pat: string, rest: string, rep: string)
    requires pat != []
    ensures ReplaceAll(pat + rest, pat, rep) == rep + ReplaceAll(rest, pat, rep)
  {
    assert pat <= pat + rest;
    assert (pat + rest)[|pat|..] == rest;
  }

  /** Text without the pattern's first character passes through a replacement untouched. */
  lemma {:induction false} SkipPlain(u: string, rest: string, pat: string, rep: string)
    requires pat != [] && pat[0] !in u
    ensures ReplaceAll(u + rest, pat, rep) == u + ReplaceAll(rest, pat, rep)
    decreases |u|
  {
    if u != [] {
      assert (u + rest)[0] == u[0] != pat[0];
      assert !(pat <= u + rest);
      assert (u + rest)[1..] == u[1..] + rest;
      assert ReplaceAll(u + rest, pat, rep) == [u[0]] + ReplaceAll(u[1..] + rest, pat, rep);
      SkipPlain(u[1..], rest, pat, rep);
      assert [u[0]] + (u[1..] + ReplaceAll(rest, pat, rep)) == u + ReplaceAll(rest, pat, rep);
    } else {
      assert u + rest == rest;
    }
  }

  /** Any two of the five entities differ at their second or third character. */
  lemma EntitiesDiffer(j: nat, k: nat)
    requires j < 5 && k < 5 && j != k
    ensures |Pat(j)| >= 4 && |Pat(k)| >= 4
    ensures Pat(k)[1] != Pat(j)[1] || Pat(k)[2] != Pat(j)[2]
    ensures Pat(j)[0] == Pat(k)[0] && Pat(k)[0] !in Pat(j)[1..]
  {
  }

  /** A word that begins like the pattern but departs from it at its second or third character is passed over. */
  lemma SkipMismatch(e: string, rest: string, pat: string, rep: string)
    requires |e| >= 3 && |pat| >= 3 && e[0] == pat[0] && pat[0] !in e[1..]
    requires pat[1] != e[1] || pat[2] != e[2]
    ensures ReplaceAll(e + rest, pat, rep) == e + ReplaceAll(rest, pat, rep)
  {
    var s := e + rest;
    assert s[1] == e[1] && s[2] == e[2];
    assert !(pat <= s);
    assert s[1..] == e[1..] + rest;
    assert ReplaceAll(s, pat, rep) == [e[0]] + ReplaceAll(e[1..] + rest, pat, rep);
    SkipPlain(e[1..], rest, pat, rep);
    assert e == [e[0]] + e[1..];
  }

  /** One entity passes untouched through the replacement of another: no entity is a prefix of another. */
  lemma SkipEntity(j: nat, k: nat, rest: string)
    requires j < 5 && k < 5 && j != k
    ensures ReplaceAll(Pat(j) + rest, Pat(k), [Sym(k)]) == Pat(j) + ReplaceAll(rest, Pat(k), [Sym(k)])
  {
    EntitiesDiffer(j, k);
    SkipMismatch(Pat(j), rest, Pat(k), [Sym(k)]);
  }

  /** A reference to another entity passes untouched through a replacement: the names differ, and `;` ends both. */
  lemma ForeignSkip(n: string, name: string, rest: string, rep: string)
    requires '&' !in n && ';' !in n && ';' !in name && n != name
    ensures ReplaceAll(Ref(n) + rest, Ref(name), rep) == Ref(n) + ReplaceAll(rest, Ref(name), rep)
  {
    var s, pat := Ref(n) + rest, Ref(name);
    assert s[0] == '&' && s[1..] == n + ";" + rest;
    if |n| < |name| {
      assert s[1 + |n|] == ';' && pat[1 + |n|] == name[|n|];
    } else if |n| > |name| {
      assert pat[1 + |name|] == ';' && s[1 + |name|] == n[|name|];
    } else {
      assert s[..|pat|] == Ref(n);
      assert Ref(n)[1..|n| + 1] == n && pat[1..|name| + 1] == name;
    }
    assert !(pat <= s);
    assert ReplaceAll(s, pat, rep) == [s[0]] + ReplaceAll(s[1..], pat, rep);
    SkipPlain(n + ";", rest, pat, rep);
    assert [s[0]] + (n + ";" + ReplaceAll(rest, pat, rep)) == Ref(n) + ReplaceAll(rest, pat, rep);
  }

  /** The k-th replacement on one character's encoding followed by more text. */
  lemma PartStep(c: char, k: nat, rest: string)
    requires k < 5
    ensures ReplaceAll(PartChar(c, k) + rest, Pat(k), [Sym(k)]) == PartChar(c, k + 1) + ReplaceAll(rest, Pat(k), [Sym(k)])
  {
    EscapeCharRank(c);
    if Rank(c) == k {
      MatchConsumed(Pat(k), rest, [Sym(k)]);
    } else if Rank(c) < k || Rank(c) == 5 {
      SkipPlain([c], rest, Pat(k), [Sym(k)]);
    } else {
      SkipEntity(Rank(c), k, rest);
    }
  }

  /** The k-th replacement on one piece followed by more text. */
  lemma PieceStep(p: Piece, k: nat, rest: string)
    requires k < 5 && (p.Foreign? ==> ForeignName(p.name))
    ensures ReplaceAll(PieceAt(p, k) + rest, Pat(k), [Sym(k)]) == PieceAt(p, k + 1) + ReplaceAll(rest, Pat(k), [Sym(k)])
  {
    match p
    case Text(c) => PartStep(c, k, rest);
    case Foreign(n) =>
      assert n != Name(k);
      PatRef(k);
      ForeignSkip(n, Name(k), rest, [Sym(k)]);
  }

  /** Each replacement of the chain takes the encoded text one stage further. */
  lemma {:induction false} Step(ps: seq<Piece>, k: nat)
    requires k < 5 && ForeignNames(ps)
    ensures ReplaceAll(Stage(ps, k), Pat(k), [Sym(k)]) == Stage(ps, k + 1)
    decreases |ps|
  {
    if ps != [] {
      assert ForeignNames(ps[1..]) by {
        assert forall i :: 0 <= i < |ps[1..]| ==> ps[1..][i] == ps[i + 1];
      }
      Step(ps[1..], k);
      PieceStep(ps[0], k, Stage(ps[1..], k));
    }
  }

  /** Before any replacement the staged text is the serialiser's output. */
  lemma {:induction false} StageZero(ps: seq<Piece>)
    ensures Stage(ps, 0) == Encode(ps)
    decreases |ps|
  {
    if ps != [] {
      StageZero(ps[1..]);
    }
  }

  /** After all five replacements the staged text is what the pieces stand for. */
  lemma {:induction false} StageFive(ps: seq<Piece>)
    ensures Stage(ps, 5) == Meaning(ps)
    decreases |ps|
  {
    if ps != [] {
      StageFive(ps[1..]);
      if ps[0].Text? {
        EscapeCharRank(ps[0].c);
      }
    }
  }

  /** Plain text as pieces: its encoding is `Escape`, and it stands for itself. */
  lemma {:induction false} TextsMeaning(s: string)
    ensures Encode(Texts(s)) == Escape(s) && Meaning(Texts(s)) == s
    decreases |s|
  {
    if s != [] {
      assert Texts(s)[1..] == Texts(s[1..]);
      TextsMeaning(s[1..]);
      assert s == [s[0]] + s[1..];
    }
  }

  // ---------------------------------------------------------------------------
  // What the chain does

  /**
   * Any other `&`-sequence is left intact, wherever it stands: in text that
   * mixes encoded characters with references to other entities, the five are
   * decoded and every other reference comes out as it went in.
   */
  lemma OtherEntitiesIntact(ps: seq<Piece>)
    requires ForeignNames(ps)
    ensures Unescape(Encode(ps)) == Meaning(ps)
  {
    var s0 := Encode(ps);
    StageZero(ps);
    var s1 := ReplaceAll(s0, "&lt;", "<");
    assert s1 == Stage(ps, 1) by { Step(ps, 0); }
    var s2 := ReplaceAll(s1, "&gt;", ">");
    assert s2 == Stage(ps, 2) by { Step(ps, 1); }
    var s3 := ReplaceAll(s2, "&apos;", "'");
    assert s3 == Stage(ps, 3) by { Step(ps, 2); }
    var s4 := ReplaceAll(s3, "&quot;", "\"");
    assert s4 == Stage(ps, 4) by { Step(ps, 3); }
    var s5 := ReplaceAll(s4, "&amp;", "&");
    assert s5 == Stage(ps, 5) by { Step(ps, 4); }
    StageFive(ps);
  }

  /** Undoing the xhtml encoding of the five critical characters gives back the original text. */
  lemma RoundTrip(s: string)
    ensures Unescape(Escape(s)) == s
  {
    TextsMeaning(s);
    OtherEntitiesIntact(Texts(s));
  }

  /** Each of the five entities is decoded to its character: `&lt;`, `&gt;`, `&apos;`, `&quot;`, `&amp;`. */
  lemma DecodesEachEntity(k: nat)
    requires k < 5
    ensures Unescape(Pat(k)) == [Sym(k)]
  {
    assert Escape([Sym(k)]) == Pat(k);
    RoundTrip([Sym(k)]);
  }

  /** Decoding is single-level: text that was encoded twice comes out encoded once. */
  lemma SingleLevel(s: string)
    ensures Unescape(Escape(Escape(s))) == Escape(s)
  {
    RoundTrip(Escape(s));
  }

  /** `&amp;lt;` becomes `&lt;`, not `<`, because `&amp;` is replaced last. */
  lemma AmpLtDecodedOnce()
    ensures Unescape("&amp;lt;") == "&lt;"
  {
    assert Escape("&lt;") == "&amp;lt;";
    RoundTrip("&lt;");
  }

  /** Text in which the pattern does not occur passes through a replacement untouched. */
  lemma {:induction false} NoOccurrence(s: string, pat: string, rep: string)
    requires pat != []
    requires forall i :: 0 <= i < |s| ==> !(pat <= s[i..])
    ensures ReplaceAll(s, pat, rep) == s
    decreases |s|
  {
    if s != [] {
      assert s[0..] == s;
      forall i | 0 <= i < |s[1..]| ensures !(pat <= s[1..][i..]) {
        assert s[1..][i..] == s[i + 1..];
      }
      NoOccurrence(s[1..], pat, rep);
      assert s == [s[0]] + s[1..];
    }
  }

  /** None of the five entities occurs anywhere in `s`. */
  predicate NoEntity(s: string)
  {
    forall i, k :: 0 <= i < |s| && 0 <= k < 5 ==> !(Pat(k) <= s[i..])
  }

  /** Text in which none of the five entities occurs anywhere is left as it is. */
  lemma NoEntityUnchanged(s: string)
    requires NoEntity(s)
    ensures Unescape(s) == s
  {
    NoOccurrence(s, Pat(0), [Sym(0)]);
    NoOccurrence(s, Pat(1), [Sym(1)]);
    NoOccurrence(s, Pat(2), [Sym(2)]);
    NoOccurrence(s, Pat(3), [Sym(3)]);
    NoOccurrence(s, Pat(4), [Sym(4)]);
  }

  /** Text without any `&` is returned unchanged. */
  lemma NoAmpUnchanged(s: string)
    requires '&' !in s
    ensures Unescape(s) == s
  {
    assert s + [] == s;
    SkipPlain(s, [], "&lt;", "<");
    SkipPlain(s, [], "&gt;", ">");
    SkipPlain(s, [], "&apos;", "'");
    SkipPlain(s, [], "&quot;", "\"");
    SkipPlain(s, [], "&amp;", "&");
  }

  /** `&nbsp;` is not one of the five and survives the chain. */
  lemma NbspIntact()
    ensures Unescape("&nbsp;") == "&nbsp;"
  {
    var s := "&nbsp;";
    forall i, k | 0 <= i < |s| && 0 <= k < 5 ensures !(Pat(k) <= s[i..]) {
      if i == 0 {
        assert Pat(k)[1] != s[1];
      } else {
        assert s[i] != '&';
      }
    }
    NoEntityUnchanged(s);
  }

  /** `&nbsp;` stays as it is beside an entity that is decoded. */
  lemma NbspBesideLt()
    ensures Unescape("&nbsp;&lt;") == "&nbsp;<"
  {
    var ps := [Foreign("nbsp"), Text('<')];
    assert ForeignName("nbsp");
    assert Encode(ps) == "&nbsp;&lt;" by {
      assert ps[1..] == [Text('<')];
    }
    assert Meaning(ps) == "&nbsp;<" by {
      assert ps[1..] == [Text('<')];
    }
    OtherEntitiesIntact(ps);
  }

  /** The `&` a replacement inserts is not rescanned: `&amp;amp;` loses one level only. */
  lemma NoRescan()
    ensures ReplaceAll("&amp;amp;", "&amp;", "&") == "&amp;"
  {
    assert "&amp;amp;" == "&amp;" + "amp;";
    MatchConsumed("&amp;", "amp;", "&");
    assert "amp;" + [] == "amp;";
    SkipPlain("amp;", [], "&amp;", "&");
  }
}
