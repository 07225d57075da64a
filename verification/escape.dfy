/** EscapeSQLText and UndoEscapeSQLText of src/database/dbase.cpp. The second undoes the
    codes one after another, each by replacing the leftmost occurrence and scanning again
    from the start, so that a replacement can complete a new occurrence. */
module Escape {

  const EQUOT := "&quot"
  const ENEWL := "&newl"
  const EAMPE := "&ampe"
  const ETABE := "&tabe"

  // ----- searching and replacing

  predicate Occurs(s: string, pat: string, i: int) {
    0 <= i <= |s| - |pat| && s[i..i + |pat|] == pat
  }

  predicate Contains(s: string, pat: string) {
    exists i :: 0 <= i <= |s| && Occurs(s, pat, i)
  }

  /** QString::find: the leftmost occurrence, or -1. */
  function Find(s: string, pat: string): (i: int)
    requires pat != []
    ensures if i == -1 then !Contains(s, pat) else Occurs(s, pat, i)
    ensures forall j :: 0 <= j < i ==> !Occurs(s, pat, j)
  {
    FindFrom(s, pat, 0)
  }

  function FindFrom(s: string, pat: string, from: nat): (i: int)
    requires pat != [] && from <= |s|
    requires forall j :: 0 <= j < from ==> !Occurs(s, pat, j)
    ensures if i == -1 then forall j :: !Occurs(s, pat, j) else Occurs(s, pat, i)
    ensures forall j :: 0 <= j < i ==> !Occurs(s, pat, j)
    decreases |s| - from
  {
    if Occurs(s, pat, from) then from
    else if from == |s| then -1
    else FindFrom(s, pat, from + 1)
  }

  function ReplaceAt(s: string, pat: string, c: char, i: int): string
    requires Occurs(s, pat, i)
  {
    s[..i] + [c] + s[i + |pat|..]
  }

  /** Replace the leftmost occurrence until there is none. */
  function ReplaceAll(s: string, pat: string, c: char): (r: string)
    requires |pat| > 1
    ensures !Contains(r, pat)
    ensures |r| <= |s| && (|r| == |s| ==> r == s)
    decreases |s|
  {
    var i := Find(s, pat);
    if i == -1 then s else ReplaceAll(ReplaceAt(s, pat, c, i), pat, c)
  }

  lemma NothingToReplace(s: string, pat: string, c: char)
    requires |pat| > 1
    ensures ReplaceAll(s, pat, c) == s <==> !Contains(s, pat)
  {
    var i := Find(s, pat);
    if i != -1 {
      assert Occurs(s, pat, i);
      assert |ReplaceAt(s, pat, c, i)| < |s|;
    }
  }

  // ----- the codes

  /** How a character is written when the codes up to the given level are in use: the
      ampersand's at 1, the newline's at 2, the quote's at 3. A tab is dropped. */
  function Code(c: char, level: nat): string {
    match c
    case '\'' => if level >= 3 then EQUOT else [c]
    case '\n' => if level >= 2 then ENEWL else [c]
    case '&' => if level >= 1 then EAMPE else [c]
    case '\t' => ""
    case _ => [c]
  }

  function Coded(s: string, level: nat): string {
    if s == "" then "" else Code(s[0], level) + Coded(s[1..], level)
  }

  /** What EscapeSQLText is for. */
  function Escaped(s: string): string {
    Coded(s, 3)
  }

  function Undone(s: string): string {
    ReplaceAll(ReplaceAll(ReplaceAll(ReplaceAll(s, EQUOT, '\''), ENEWL, '\n'), EAMPE, '&'), ETABE, '\t')
  }

  lemma {:induction false} CodedAdd(s: string, c: char, level: nat)
    ensures Coded(s + [c], level) == Coded(s, level) + Code(c, level)
  {
    if s == "" {
      assert s + [c] == [c];
    } else {
      assert (s + [c])[1..] == s[1..] + [c];
      CodedAdd(s[1..], c, level);
    }
  }

  method EscapeSQLText(text: string) returns (out: string)
    ensures out == Escaped(text)
  {
    out := "";
    var i := 0;
    while i < |text|
      invariant 0 <= i <= |text|
      invariant out == Coded(text[..i], 3)
    {
      assert text[..i + 1] == text[..i] + [text[i]];
      CodedAdd(text[..i], text[i], 3);
      match text[i] {
        case '\'' => out := out + EQUOT;
        case '\n' => out := out + ENEWL;
        case '&' => out := out + EAMPE;
        case '\t' => out := out + "";
        case c => out := out + [c];
      }
      i := i + 1;
    }
    assert text[..i] == text;
  }

  lemma FindFits(s: string, pat: string)
    requires |pat| > 1
    ensures Find(s, pat) == -1 || 0 <= Find(s, pat) <= |s| - |pat|
  {
  }

  lemma OneReplacement(s: string, pat: string, c: char)
    requires |pat| > 1
    ensures var i := Find(s, pat);
            if i == -1 then ReplaceAll(s, pat, c) == s
            else ReplaceAll(s, pat, c) == ReplaceAll(ReplaceAt(s, pat, c, i), pat, c)
                 && 0 < |ReplaceAt(s, pat, c, i)| < |s|
                 && ReplaceAt(s, pat, c, i) == s[..i] + ([c] + s[i + |pat|..])
  {
  }

  /** One of the four loops of UndoEscapeSQLText. */
  method UndoCode(text: string, soFar: string, pat: string, c: char) returns (internal: string, out: string)
    requires |pat| > 1 && (soFar != "" ==> soFar == text)
    ensures internal == ReplaceAll(text, pat, c)
    ensures out == (if internal == text then soFar else internal)
    ensures internal == "" ==> text == ""
  {
    hide ReplaceAll, Contains, Occurs, ReplaceAt;
    internal, out := text, soFar;
    var pos := Find(internal, pat);
    OneReplacement(internal, pat, c);
    while pos != -1
      invariant pos == Find(internal, pat) && (pos == -1 ==> ReplaceAll(internal, pat, c) == internal)
      invariant ReplaceAll(internal, pat, c) == ReplaceAll(text, pat, c)
      invariant if |internal| == |text| then internal == text && out == soFar
                else |internal| < |text| && out == internal != ""
      decreases |internal|
    {
      OneReplacement(internal, pat, c);
      FindFits(internal, pat);
      out := internal[..pos];
      out := out + ([c] + internal[pos + |pat|..]);
      internal := out;
      pos := Find(internal, pat);
      OneReplacement(internal, pat, c);
    }
  }

  method UndoEscapeSQLText(text: string) returns (r: string)
    ensures r == Undone(text)
  {
    var internal, out := UndoCode(text, "", EQUOT, '\'');
    internal, out := UndoCode(internal, out, ENEWL, '\n');
    internal, out := UndoCode(internal, out, EAMPE, '&');
    internal, out := UndoCode(internal, out, ETABE, '\t');
    r := if out == "" then text else out;
  }

  // ----- escaped text is safe

  predicate Safe(t: string) {
    '\'' !in t && '\n' !in t && '\t' !in t
  }

  /** Escaped text has no quote, no newline and no tab. */
  lemma {:induction false} EscapedIsSafe(s: string)
    ensures Safe(Escaped(s))
  {
    if s != "" {
      EscapedIsSafe(s[1..]);
    }
  }

  // ----- undoing one code

  /** A text in which some places stand for a code. */
  datatype Mark = Plain(c: char) | Coding

  /** Every place written as the code, */
  function Long(w: seq<Mark>, pat: string): string {
    if w == [] then "" else (if w[0].Plain? then [w[0].c] else pat) + Long(w[1..], pat)
  }

  /** and every place written as the character it stands for. */
  function Short(w: seq<Mark>, c: char): string {
    if w == [] then "" else (if w[0].Plain? then [w[0].c] else [c]) + Short(w[1..], c)
  }

  /** The first character of a code does not come again in it, and the last is not the one it
      stands for. */
  predicate IsCode(pat: string, c: char) {
    |pat| > 1 && pat[|pat| - 1] != c && forall i :: 0 < i < |pat| ==> pat[i] != pat[0]
  }

  lemma FindIs(s: string, pat: string, i: int)
    requires pat != [] && Occurs(s, pat, i) && forall j :: 0 <= j < i ==> !Occurs(s, pat, j)
    ensures Find(s, pat) == i
  {
    assert Contains(s, pat);
  }

  /** An occurrence inside p + x that ends inside p is one in p. */
  lemma OccursInside(p: string, x: string, pat: string, i: int)
    requires 0 <= i && i + |pat| <= |p|
    ensures Occurs(p + x, pat, i) <==> Occurs(p, pat, i)
  {
    assert (p + x)[i..i + |pat|] == p[i..i + |pat|];
  }

  /** A code written behind text without it is the leftmost occurrence. */
  lemma CodeIsLeftmost(p: string, x: string, pat: string, c: char)
    requires IsCode(pat, c) && !Contains(p, pat)
    ensures Find(p + pat + x, pat) == |p|
    ensures ReplaceAll(p + pat + x, pat, c) == ReplaceAll(p + [c] + x, pat, c)
  {
    var u := p + pat + x;
    assert u[|p|..|p| + |pat|] == pat;
    forall j | 0 <= j < |p|
      ensures !Occurs(u, pat, j)
    {
      if j + |pat| <= |p| {
        assert u == p + (pat + x);
        OccursInside(p, pat + x, pat, j);
      } else {
        assert u[j..j + |pat|][|p| - j] == pat[0];
      }
    }
    FindIs(u, pat, |p|);
    assert ReplaceAt(u, pat, c, |p|) == p + [c] + x;
  }

  /** A character behind text without the code completes at most one occurrence. */
  lemma CharCompletes(p: string, d: char, pat: string, i: int)
    requires !Contains(p, pat) && pat != [] && Occurs(p + [d], pat, i)
    ensures i == |p| + 1 - |pat| && p + [d] == p[..i] + pat
  {
    if i + |pat| <= |p| {
      OccursInside(p, [d], pat, i);
    }
    assert p + [d] == (p + [d])[..i] + (p + [d])[i..i + |pat|];
  }

  lemma PrefixLacks(p: string, i: int, pat: string, c: char)
    requires IsCode(pat, c) && !Contains(p, pat) && 0 <= i <= |p|
    ensures !Contains(p[..i] + [c], pat)
  {
    var q := p[..i] + [c];
    forall j | 0 <= j <= |q|
      ensures !Occurs(q, pat, j)
    {
      if 0 <= j <= |q| - |pat| {
        if j + |pat| <= i {
          assert q[j..j + |pat|] == p[j..j + |pat|];
          assert !Occurs(p, pat, j);
        } else {
          assert q[j..j + |pat|][|pat| - 1] == c;
        }
      }
    }
  }

  /** Scanning again from the start makes no difference to where a code was written and where
      its character: both texts come to the same end. */
  lemma {:induction false} UndoingMeets(p: string, w: seq<Mark>, pat: string, c: char)
    requires IsCode(pat, c) && !Contains(p, pat)
    ensures ReplaceAll(p + Long(w, pat), pat, c) == ReplaceAll(p + Short(w, c), pat, c)
    decreases |w|
  {
    if w != [] {
      hide ReplaceAll, Contains, Long, Short;
      FirstMark(p, w, pat, c);
      if w[0].Coding? {
        CodeMeets(p, w, pat, c);
      } else {
        PlainMeets(p, w, pat, c);
      }
    }
  }

  lemma FirstMark(p: string, w: seq<Mark>, pat: string, c: char)
    requires w != []
    ensures p + Long(w, pat) == p + (if w[0].Plain? then [w[0].c] else pat) + Long(w[1..], pat)
    ensures p + Short(w, c) == p + (if w[0].Plain? then [w[0].c] else [c]) + Short(w[1..], c)
  {
  }

  lemma {:induction false} CodeMeets(p: string, w: seq<Mark>, pat: string, c: char)
    requires IsCode(pat, c) && !Contains(p, pat) && w != [] && w[0].Coding?
    ensures ReplaceAll(p + pat + Long(w[1..], pat), pat, c) == ReplaceAll(p + [c] + Short(w[1..], c), pat, c)
    decreases |w|, 0
  {
    hide ReplaceAll;
    CodeIsLeftmost(p, Long(w[1..], pat), pat, c);
    PrefixLacks(p, |p|, pat, c);
    assert p[..|p|] == p;
    UndoingMeets(p + [c], w[1..], pat, c);
  }

  lemma {:induction false} PlainMeets(p: string, w: seq<Mark>, pat: string, c: char)
    requires IsCode(pat, c) && !Contains(p, pat) && w != [] && w[0].Plain?
    ensures ReplaceAll(p + [w[0].c] + Long(w[1..], pat), pat, c) == ReplaceAll(p + [w[0].c] + Short(w[1..], c), pat, c)
    decreases |w|, 0
  {
    hide ReplaceAll, Long, Short;
    var x, y := Long(w[1..], pat), Short(w[1..], c);
    var i := Find(p + [w[0].c], pat);
    if i == -1 {
      UndoingMeets(p + [w[0].c], w[1..], pat, c);
    } else {
      CharCompletes(p, w[0].c, pat, i);
      PrefixLacks(p, i, pat, c);
      PrefixOnlyLacks(p, i, pat);
      CodeIsLeftmost(p[..i], x, pat, c);
      CodeIsLeftmost(p[..i], y, pat, c);
      UndoingMeets(p[..i] + [c], w[1..], pat, c);
    }
  }

  lemma PrefixOnlyLacks(p: string, i: int, pat: string)
    requires !Contains(p, pat) && 0 <= i <= |p|
    ensures !Contains(p[..i], pat)
  {
    forall j | 0 <= j <= i && Occurs(p[..i], pat, j)
      ensures false
    {
      assert p[..i] + p[i..] == p;
      OccursInside(p[..i], p[i..], pat, j);
    }
  }

  // ----- one level of codes after another

  function PatOf(level: nat): string {
    if level == 1 then EAMPE else if level == 2 then ENEWL else EQUOT
  }

  function CharOf(level: nat): char {
    if level == 1 then '&' else if level == 2 then '\n' else '\''
  }

  function Plains(t: string): seq<Mark> {
    seq(|t|, i requires 0 <= i < |t| => Plain(t[i]))
  }

  /** A text with the codes up to a level in use, the places of that level's code marked. */
  function Marked(s: string, level: nat): seq<Mark> {
    if s == "" then []
    else (if s[0] == CharOf(level) then [Coding] else Plains(Code(s[0], level))) + Marked(s[1..], level)
  }

  lemma {:induction false} LongAdd(v: seq<Mark>, w: seq<Mark>, pat: string)
    ensures Long(v + w, pat) == Long(v, pat) + Long(w, pat)
  {
    if v == [] {
      assert v + w == w;
    } else {
      assert (v + w)[1..] == v[1..] + w;
      LongAdd(v[1..], w, pat);
    }
  }

  lemma {:induction false} ShortAdd(v: seq<Mark>, w: seq<Mark>, c: char)
    ensures Short(v + w, c) == Short(v, c) + Short(w, c)
  {
    if v == [] {
      assert v + w == w;
    } else {
      assert (v + w)[1..] == v[1..] + w;
      ShortAdd(v[1..], w, c);
    }
  }

  lemma {:induction false} LongPlains(t: string, pat: string, c: char)
    ensures Long(Plains(t), pat) == t && Short(Plains(t), c) == t
  {
    if t != "" {
      assert Plains(t)[1..] == Plains(t[1..]);
      LongPlains(t[1..], pat, c);
    }
  }

  lemma {:induction false} MarkedReads(s: string, level: nat)
    requires 1 <= level <= 3
    ensures Long(Marked(s, level), PatOf(level)) == Coded(s, level)
    ensures Short(Marked(s, level), CharOf(level)) == Coded(s, level - 1)
  {
    if s != "" {
      var pat, c := PatOf(level), CharOf(level);
      MarkedReads(s[1..], level);
      var v := if s[0] == c then [Coding] else Plains(Code(s[0], level));
      LongAdd(v, Marked(s[1..], level), pat);
      ShortAdd(v, Marked(s[1..], level), c);
      LongPlains(Code(s[0], level), pat, c);
      OneMark(s[0], level);
    }
  }

  lemma OneMark(d: char, level: nat)
    requires 1 <= level <= 3
    ensures if d == CharOf(level) then Code(d, level) == PatOf(level) && Code(d, level - 1) == [d]
            else Code(d, level) == Code(d, level - 1)
    ensures Long([Coding], PatOf(level)) == PatOf(level) && Short([Coding], CharOf(level)) == [CharOf(level)]
    ensures IsCode(PatOf(level), CharOf(level))
  {
  }

  /** Undoing the code of a level comes to the same as undoing it where it was never used. */
  lemma LevelUndone(s: string, level: nat)
    requires 1 <= level <= 3
    ensures ReplaceAll(Coded(s, level), PatOf(level), CharOf(level))
         == ReplaceAll(Coded(s, level - 1), PatOf(level), CharOf(level))
  {
    OneMark('a', level);
    MarkedReads(s, level);
    hide ReplaceAll, Long, Short, Coded, Marked, PatOf, CharOf;
    var w := Marked(s, level);
    assert !Contains("", PatOf(level));
    UndoingMeets("", w, PatOf(level), CharOf(level));
    assert "" + Long(w, PatOf(level)) == Long(w, PatOf(level))
        && "" + Short(w, CharOf(level)) == Short(w, CharOf(level));
  }

  /** Every ampersand begins something that does not go on with d. */
  predicate Clean(t: string, d: char) {
    forall i :: 0 <= i < |t| && t[i] == '&' ==> i + 1 < |t| && t[i + 1] != d
  }

  lemma {:induction false} CodedIsClean(s: string, level: nat)
    requires 1 <= level <= 2
    ensures Clean(Coded(s, level), PatOf(level + 1)[1])
  {
    if s != "" {
      CodedIsClean(s[1..], level);
      var d := PatOf(level + 1)[1];
      assert Clean(Code(s[0], level), d);
    }
  }

  lemma CleanLacks(t: string, pat: string)
    requires |pat| > 1 && pat[0] == '&' && Clean(t, pat[1])
    ensures !Contains(t, pat)
  {
    forall i | 0 <= i <= |t|
      ensures !Occurs(t, pat, i)
    {
      if i + |pat| <= |t| {
        var piece := t[i..i + |pat|];
        assert piece[0] == t[i] && piece[1] == t[i + 1];
      }
    }
  }

  /** With the ampersand's code in use no other code is ever read where none was written. */
  lemma UpperLevelsUndone(s: string)
    ensures ReplaceAll(ReplaceAll(Escaped(s), EQUOT, '\''), ENEWL, '\n') == Coded(s, 1)
  {
    LevelUndone(s, 3);
    CodedIsClean(s, 2);
    CleanLacks(Coded(s, 2), EQUOT);
    NothingToReplace(Coded(s, 2), EQUOT, '\'');
    LevelUndone(s, 2);
    CodedIsClean(s, 1);
    CleanLacks(Coded(s, 1), ENEWL);
    NothingToReplace(Coded(s, 1), ENEWL, '\n');
  }

  // ----- the round trip

  /** The text without its tabs. */
  function Tabless(s: string): string {
    Coded(s, 0)
  }

  lemma {:induction false} TablessShrinks(s: string)
    ensures |Tabless(s)| <= |s|
    ensures Tabless(s) == s <==> '\t' !in s
    ensures |Tabless(s)| == |s| <==> '\t' !in s
  {
    if s != "" {
      TablessShrinks(s[1..]);
      assert s == [s[0]] + s[1..];
    }
  }

  /** What is left of a text that was escaped and unescaped: tabs are gone, and then "&ampe"
      and "&tabe" are read as codes. */
  lemma UndoneEscaped(s: string)
    ensures Undone(Escaped(s)) == ReplaceAll(ReplaceAll(Tabless(s), EAMPE, '&'), ETABE, '\t')
  {
    UpperLevelsUndone(s);
    LevelUndone(s, 1);
  }

  /** The round trip gives the text back exactly when it has no tab, no "&ampe" and no "&tabe". */
  lemma RoundTrip(s: string)
    ensures Undone(Escaped(s)) == s <==> '\t' !in s && !Contains(s, EAMPE) && !Contains(s, ETABE)
  {
    UndoneEscaped(s);
    TablessShrinks(s);
    var t := Tabless(s);
    var u := ReplaceAll(t, EAMPE, '&');
    NothingToReplace(t, EAMPE, '&');
    NothingToReplace(u, ETABE, '\t');
  }

  /** A text that does not come back. */
  lemma RoundTripFails()
    ensures Undone(Escaped("R&ampes")) != "R&ampes"
  {
    var s := "R&ampes";
    assert s[1..6] == EAMPE;
    assert Occurs(s, EAMPE, 1);
    RoundTrip(s);
  }
}
