/** The enrichment job's in-place rewrite of a project's TOML file. The
    file is a sequence of lines split at every JavaScript line terminator,
    which is exactly where the `^` and `$` of a multiline regex match; a
    multiline `String.prototype.replace` of a whole-line pattern therefore
    rewrites the first line whose text matches it, and nothing else. */
module Toml {
  import opened Wrappers
  import opened Text
  import opened Seqs

  // ---------------------------------------------------------------------
  // Lines
  // ---------------------------------------------------------------------

  /** The LineTerminator characters of ECMAScript. */
  predicate IsLineTerminator(c: char) {
    c == '\n' || c == '\r' || c == '\U{2028}' || c == '\U{2029}'
  }

  predicate NoTerminator(s: string) {
    forall i :: 0 <= i < |s| ==> !IsLineTerminator(s[i])
  }

  /** A line's text and the terminator that ends it (`""` for the last). */
  datatype Line = Line(text: string, eol: string)

  /** Terminator-free texts, one terminator after every line but the last. */
  predicate WellFormed(lines: seq<Line>) {
    && |lines| >= 1
    && (forall i :: 0 <= i < |lines| ==> NoTerminator(lines[i].text))
    && (forall i :: 0 <= i < |lines| - 1 ==> |lines[i].eol| == 1 && IsLineTerminator(lines[i].eol[0]))
    && lines[|lines| - 1].eol == ""
  }

  function Serialize(lines: seq<Line>): string {
    if |lines| == 0 then "" else lines[0].text + lines[0].eol + Serialize(lines[1..])
  }

  /** The file content as lines. */
  function Parse(s: string): (lines: seq<Line>)
    ensures WellFormed(lines)
    ensures Serialize(lines) == s
    decreases |s|
  {
    var k := FindIndex(s, IsLineTerminator);
    if k == |s| then
      assert NoTerminator(s);
      [Line(s, "")]
    else
      var rest := Parse(s[k + 1..]);
      var lines := [Line(s[..k], [s[k]])] + rest;
      assert lines[1..] == rest;
      assert s == s[..k] + [s[k]] + s[k + 1..];
      lines
  }

  /** Parsing a serialized well-formed file gives back its lines. */
  lemma {:induction false} ParseSerialize(lines: seq<Line>)
    requires WellFormed(lines)
    ensures Parse(Serialize(lines)) == lines
    decreases |lines|
  {
    var t := lines[0].text;
    if |lines| == 1 {
      assert Serialize(lines) == t + "" + "";
      NoTerminatorFound(t);
      assert Parse(t) == [Line(t, "")];
      assert lines == [Line(t, "")];
    } else {
      var rest := Serialize(lines[1..]);
      assert Serialize(lines) == t + lines[0].eol + rest;
      FirstLineSplit(t, lines[0].eol, rest);
      WellFormedTail(lines);
      ParseSerialize(lines[1..]);
      var s := Serialize(lines);
      assert Parse(s) == [Line(s[..|t|], [s[|t|]])] + Parse(s[|t| + 1..]);
      assert lines == [Line(t, lines[0].eol)] + lines[1..];
    }
  }

  lemma NoTerminatorFound(t: string)
    requires NoTerminator(t)
    ensures FindIndex(t, IsLineTerminator) == |t|
  {
  }

  /** The first terminator of a serialized file ends its first line. */
  lemma FirstLineSplit(t: string, eol: string, rest: string)
    requires NoTerminator(t)
    requires |eol| == 1 && IsLineTerminator(eol[0])
    ensures var s := t + eol + rest;
      && FindIndex(s, IsLineTerminator) == |t|
      && s[..|t|] == t && [s[|t|]] == eol && s[|t| + 1..] == rest
  {
    var s := t + eol + rest;
    assert forall i :: 0 <= i < |t| ==> s[i] == t[i];
    assert s[|t|] == eol[0];
    assert s[..|t|] == t;
    assert s[|t| + 1..] == rest;
  }

  lemma WellFormedTail(lines: seq<Line>)
    requires WellFormed(lines) && |lines| > 1
    ensures WellFormed(lines[1..])
  {
    forall i | 0 <= i < |lines| - 2
      ensures |lines[1..][i].eol| == 1 && IsLineTerminator(lines[1..][i].eol[0])
    {
      assert lines[1..][i] == lines[i + 1];
    }
  }

  // ---------------------------------------------------------------------
  // Searching the content line by line
  // ---------------------------------------------------------------------

  lemma {:induction false} LineContainsThenContent(lines: seq<Line>, j: nat, w: string)
    requires j < |lines| && Contains(lines[j].text, w)
    ensures Contains(Serialize(lines), w)
    decreases j
  {
    if j == 0 {
      ContainsInPrefix(lines[0].text, lines[0].eol + Serialize(lines[1..]), w);
      assert lines[0].text + (lines[0].eol + Serialize(lines[1..])) == Serialize(lines);
    } else {
      LineContainsThenContent(lines[1..], j - 1, w);
      ContainsInSuffix(lines[0].text + lines[0].eol, Serialize(lines[1..]), w);
    }
  }

  lemma {:induction false} ContentContainsThenLine(lines: seq<Line>, w: string)
    requires WellFormed(lines) && NoTerminator(w)
    requires Contains(Serialize(lines), w)
    ensures exists j :: 0 <= j < |lines| && Contains(lines[j].text, w)
    decreases |lines|
  {
    var s := Serialize(lines);
    var rest := Serialize(lines[1..]);
    var i :| 0 <= i <= |s| && OccursAt(s, w, i);
    assert s == lines[0].text + lines[0].eol + rest;
    OccurrenceSplit(lines[0].text, lines[0].eol, rest, w, i);
    if !Contains(lines[0].text, w) {
      WellFormedTail(lines);
      ContentContainsThenLine(lines[1..], w);
      var j :| 0 <= j < |lines[1..]| && Contains(lines[1..][j].text, w);
      assert lines[j + 1] == lines[1..][j];
    }
  }

  /** An occurrence of a terminator-free word lies in the first line or in
      the lines after it, never across the terminator. */
  lemma OccurrenceSplit(t: string, eol: string, rest: string, w: string, i: nat)
    requires NoTerminator(w)
    requires (|eol| == 1 && IsLineTerminator(eol[0])) || (eol == "" && rest == "")
    requires OccursAt(t + eol + rest, w, i)
    ensures Contains(t, w) || (eol != "" && Contains(rest, w))
  {
    var s := t + eol + rest;
    if i + |w| <= |t| {
      assert s[i..i + |w|] == t[i..i + |w|];
      ContainsAt(t, w, i);
    } else {
      assert forall q :: i <= q < i + |w| ==> s[q] == w[q - i];
      assert eol != "" ==> s[|t|] == eol[0];
      assert i > |t|;
      assert s[i..i + |w|] == rest[i - |t| - 1..i - |t| - 1 + |w|];
      ContainsAt(rest, w, i - |t| - 1);
    }
  }

  /** `content.includes(w)` for a terminator-free `w` asks whether some
      line contains it. */
  lemma ContentContains(lines: seq<Line>, w: string)
    requires WellFormed(lines) && NoTerminator(w)
    ensures Contains(Serialize(lines), w) <==> exists j :: 0 <= j < |lines| && Contains(lines[j].text, w)
  {
    if Contains(Serialize(lines), w) {
      ContentContainsThenLine(lines, w);
    }
    if exists j :: 0 <= j < |lines| && Contains(lines[j].text, w) {
      var j :| 0 <= j < |lines| && Contains(lines[j].text, w);
      LineContainsThenContent(lines, j, w);
    }
  }

  // ---------------------------------------------------------------------
  // Field lines
  // ---------------------------------------------------------------------

  /** The four fields the job rewrites. */
  datatype Field = Stars | GoodFirstIssues | Verified | PrimaryLang

  function Prefix(f: Field): string {
    match f
    case Stars => "stars = "
    case GoodFirstIssues => "good_first_issues = "
    case Verified => "verified = "
    case PrimaryLang => "primary_lang = \""
  }

  /** A line text matches the field's whole-line pattern:
      `stars = \d+`, `good_first_issues = \d+`, `verified = (true|false)`
      and `primary_lang = ".*"`. */
  predicate Matches(f: Field, text: string) {
    StartsWith(text, Prefix(f)) &&
    var rest := text[|Prefix(f)|..];
    match f
    case Stars => IsDigits(rest)
    case GoodFirstIssues => IsDigits(rest)
    case Verified => rest == "true" || rest == "false"
    case PrimaryLang => |rest| >= 1 && rest[|rest| - 1] == '"'
  }

  /** The four patterns start with different letters, so no line matches
      two of them. */
  lemma FieldsDisjoint(f: Field, g: Field, text: string)
    requires Matches(f, text) && Matches(g, text)
    ensures f == g
  {
    assert text[0] == Prefix(f)[0] && text[0] == Prefix(g)[0];
  }

  /** The index of the first line matching `f`, or `|lines|`. */
  function FirstMatch(lines: seq<Line>, f: Field): (k: nat)
    ensures k <= |lines|
    ensures k < |lines| ==> Matches(f, lines[k].text)
    ensures forall j :: 0 <= j < k ==> !Matches(f, lines[j].text)
    decreases |lines|
  {
    if |lines| == 0 then 0
    else if Matches(f, lines[0].text) then 0
    else 1 + FirstMatch(lines[1..], f)
  }

  /** Two line sequences that agree on which lines match `f` have the same
      first match. */
  lemma {:induction false} FirstMatchSame(a: seq<Line>, b: seq<Line>, f: Field)
    requires |a| == |b|
    requires forall i :: 0 <= i < |a| ==> (Matches(f, a[i].text) <==> Matches(f, b[i].text))
    ensures FirstMatch(a, f) == FirstMatch(b, f)
    decreases |a|
  {
    if |a| > 0 {
      FirstMatchSame(a[1..], b[1..], f);
    }
  }

  /** `content.replace(/^pattern$/m, text)`: the first line matching `f`
      gets `text`; every other line, and every terminator, is kept. */
  function ReplaceFirst(lines: seq<Line>, f: Field, text: string): (r: seq<Line>)
    ensures |r| == |lines|
    ensures forall i :: 0 <= i < |lines| ==> r[i].eol == lines[i].eol
    ensures forall i :: 0 <= i < |lines| && i != FirstMatch(lines, f) ==> r[i] == lines[i]
    ensures FirstMatch(lines, f) == |lines| ==> r == lines
    ensures FirstMatch(lines, f) < |lines| ==> r[FirstMatch(lines, f)].text == text
    ensures WellFormed(lines) && NoTerminator(text) ==> WellFormed(r)
  {
    var k := FirstMatch(lines, f);
    if k < |lines| then lines[k := Line(text, lines[k].eol)] else lines
  }

  /** The first line matching `f`, if any, already reads `text`. */
  predicate Settled(lines: seq<Line>, f: Field, text: string) {
    FirstMatch(lines, f) == |lines| || lines[FirstMatch(lines, f)].text == text
  }

  /** Replacing settles the field when the new text matches the pattern. */
  lemma ReplaceSettles(lines: seq<Line>, f: Field, text: string)
    requires Matches(f, text)
    ensures Settled(ReplaceFirst(lines, f, text), f, text)
  {
    var r := ReplaceFirst(lines, f, text);
    FirstMatchSame(lines, r, f);
  }

  /** Replacing a settled field changes nothing. */
  lemma SettledUnchanged(lines: seq<Line>, f: Field, text: string)
    requires Settled(lines, f, text)
    ensures ReplaceFirst(lines, f, text) == lines
  {
  }

  /** Rewriting one field does not move another field's first match. */
  lemma ReplaceKeepsFirstMatch(lines: seq<Line>, g: Field, u: string, f: Field)
    requires f != g && Matches(g, u)
    ensures FirstMatch(ReplaceFirst(lines, g, u), f) == FirstMatch(lines, f)
  {
    var r := ReplaceFirst(lines, g, u);
    var k := FirstMatch(lines, g);
    forall i | 0 <= i < |lines| ensures Matches(f, lines[i].text) <==> Matches(f, r[i].text) {
      if i == k {
        if Matches(f, lines[i].text) {
          FieldsDisjoint(f, g, lines[i].text);
        }
        if Matches(f, r[i].text) {
          FieldsDisjoint(f, g, u);
        }
      }
    }
    FirstMatchSame(lines, r, f);
  }

  /** Rewriting one field keeps another field settled. */
  lemma ReplaceKeepsSettled(lines: seq<Line>, g: Field, u: string, f: Field, text: string)
    requires f != g && Matches(g, u)
    requires Settled(lines, f, text)
    ensures Settled(ReplaceFirst(lines, g, u), f, text)
  {
    ReplaceKeepsFirstMatch(lines, g, u, f);
    var kf, kg := FirstMatch(lines, f), FirstMatch(lines, g);
    if kf < |lines| && Matches(g, lines[kf].text) {
      FieldsDisjoint(f, g, lines[kf].text);
    }
  }

  /** A line put in front that does not match `f` keeps `f` settled. */
  lemma PrependKeepsSettled(line: Line, lines: seq<Line>, f: Field, text: string)
    requires !Matches(f, line.text)
    requires Settled(lines, f, text)
    ensures Settled([line] + lines, f, text)
  {
    assert ([line] + lines)[1..] == lines;
  }

  // ---------------------------------------------------------------------
  // The rewrite
  // ---------------------------------------------------------------------

  function StarsLine(stars: nat): string {
    "stars = " + NatToDecimal(stars)
  }

  function GoodFirstIssuesLine(count: nat): string {
    "good_first_issues = " + NatToDecimal(count)
  }

  function VerifiedLine(verified: bool): string {
    if verified then "verified = true" else "verified = false"
  }

  function LangLine(lang: string): string {
    "primary_lang = \"" + lang + "\""
  }

  /** Inserting the language line in front keeps the file well formed. */
  lemma PrependLangLine(lines: seq<Line>, lang: string)
    requires WellFormed(lines) && NoTerminator(lang)
    ensures WellFormed([Line(LangLine(lang), "\n")] + lines)
  {
    LangLineClean(lang);
    ConsWellFormed(Line(LangLine(lang), "\n"), lines);
  }

  lemma LangLineClean(lang: string)
    requires NoTerminator(lang)
    ensures NoTerminator(LangLine(lang))
  {
    NoTerminatorConcat("primary_lang = \"", lang);
    NoTerminatorConcat("primary_lang = \"" + lang, "\"");
  }

  lemma NoTerminatorConcat(a: string, b: string)
    requires NoTerminator(a) && NoTerminator(b)
    ensures NoTerminator(a + b)
  {
    assert forall i :: |a| <= i < |a + b| ==> (a + b)[i] == b[i - |a|];
  }

  lemma ConsWellFormed(l: Line, lines: seq<Line>)
    requires NoTerminator(l.text) && |l.eol| == 1 && IsLineTerminator(l.eol[0])
    requires WellFormed(lines)
    ensures WellFormed([l] + lines)
  {
    var r := [l] + lines;
    assert forall i :: 1 <= i < |r| ==> r[i] == lines[i - 1];
  }

  lemma NewLinesMatch(stars: nat, count: nat, verified: bool, lang: string)
    ensures Matches(Stars, StarsLine(stars))
    ensures Matches(GoodFirstIssues, GoodFirstIssuesLine(count))
    ensures Matches(Verified, VerifiedLine(verified))
    ensures Matches(PrimaryLang, LangLine(lang))
    ensures Contains(LangLine(lang), "primary_lang")
  {
    assert StarsLine(stars)[|Prefix(Stars)|..] == NatToDecimal(stars);
    assert GoodFirstIssuesLine(count)[|Prefix(GoodFirstIssues)|..] == NatToDecimal(count);
    assert LangLine(lang)[..12] == "primary_lang";
    ContainsAt(LangLine(lang), "primary_lang", 0);
  }

  lemma NewLinesClean(stars: nat, count: nat, verified: bool)
    ensures NoTerminator(StarsLine(stars))
    ensures NoTerminator(GoodFirstIssuesLine(count))
    ensures NoTerminator(VerifiedLine(verified))
  {
    var d, e := NatToDecimal(stars), NatToDecimal(count);
    assert forall i :: 0 <= i < |d| ==> IsDigit(d[i]);
    assert forall i :: 0 <= i < |e| ==> IsDigit(e[i]);
  }

  /** The fetched language in a boolean context: present and non-empty. */
  predicate Truthy(lang: Option<string>) {
    lang.Some? && lang.value != ""
  }

  const LangKey: string := "primary_lang"
  const AddedAtPrefix: string := "added_at = "

  /** The `primary_lang` step. Without the key anywhere in the file the
      line is inserted before `added_at`, but only when the file starts
      with that field (the regex has no multiline flag); with the key an
      existing `primary_lang = "..."` line is overwritten. */
  function SetPrimaryLang(lines: seq<Line>, lang: Option<string>): (r: seq<Line>)
    ensures !Truthy(lang) ==> r == lines
    ensures |r| == |lines| || |r| == |lines| + 1
    ensures |r| == |lines| + 1 <==>
      Truthy(lang) && !Contains(Serialize(lines), LangKey) && StartsWith(Serialize(lines), AddedAtPrefix)
    ensures |r| == |lines| + 1 ==> r[0].text == LangLine(lang.value) && r[1..] == lines
    ensures Truthy(lang) && Contains(Serialize(lines), LangKey) ==>
      && |r| == |lines|
      && (forall i :: 0 <= i < |lines| ==> r[i].eol == lines[i].eol)
      && (forall i :: 0 <= i < |lines| && i != FirstMatch(lines, PrimaryLang) ==> r[i] == lines[i])
      && (FirstMatch(lines, PrimaryLang) < |lines| ==>
            r[FirstMatch(lines, PrimaryLang)].text == LangLine(lang.value))
    ensures WellFormed(lines) && (lang.Some? ==> NoTerminator(lang.value)) ==> WellFormed(r)
  {
    if !Truthy(lang) then lines
    else if !Contains(Serialize(lines), LangKey) then
      if StartsWith(Serialize(lines), AddedAtPrefix) then InsertLangLine(lines, lang.value) else lines
    else OverwriteLangLine(lines, lang.value)
  }

  /** The language line in front of the file. */
  function InsertLangLine(lines: seq<Line>, lang: string): (r: seq<Line>)
    ensures |r| == |lines| + 1 && r[0].text == LangLine(lang) && r[1..] == lines
    ensures WellFormed(lines) && NoTerminator(lang) ==> WellFormed(r)
  {
    var r := [Line(LangLine(lang), "\n")] + lines;
    assert r[1..] == lines;
    assert WellFormed(lines) && NoTerminator(lang) ==> WellFormed(r) by {
      if WellFormed(lines) && NoTerminator(lang) {
        PrependLangLine(lines, lang);
      }
    }
    r
  }

  /** The first `primary_lang = "..."` line overwritten. */
  function OverwriteLangLine(lines: seq<Line>, lang: string): (r: seq<Line>)
    ensures |r| == |lines|
    ensures forall i :: 0 <= i < |lines| ==> r[i].eol == lines[i].eol
    ensures forall i :: 0 <= i < |lines| && i != FirstMatch(lines, PrimaryLang) ==> r[i] == lines[i]
    ensures FirstMatch(lines, PrimaryLang) < |lines| ==> r[FirstMatch(lines, PrimaryLang)].text == LangLine(lang)
    ensures WellFormed(lines) && NoTerminator(lang) ==> WellFormed(r)
  {
    assert NoTerminator(lang) ==> NoTerminator(LangLine(lang)) by {
      if NoTerminator(lang) {
        LangLineClean(lang);
      }
    }
    ReplaceFirst(lines, PrimaryLang, LangLine(lang))
  }

  /** The whole rewrite of one file's lines, in the source's order. */
  function Rewrite(lines: seq<Line>, stars: nat, goodFirstIssues: nat, verified: bool,
                   lang: Option<string>): (r: seq<Line>)
    ensures WellFormed(lines) && (lang.Some? ==> NoTerminator(lang.value)) ==> WellFormed(r)
  {
    var a := ReplaceFirst(lines, Stars, StarsLine(stars));
    var b := ReplaceFirst(a, GoodFirstIssues, GoodFirstIssuesLine(goodFirstIssues));
    var c := ReplaceFirst(b, Verified, VerifiedLine(verified));
    NewLinesClean(stars, goodFirstIssues, verified);
    SetPrimaryLang(c, lang)
  }

  /** The new file content. */
  function RewriteContent(content: string, stars: nat, goodFirstIssues: nat, verified: bool,
                          lang: Option<string>): string {
    Serialize(Rewrite(Parse(content), stars, goodFirstIssues, verified, lang))
  }

  /** After the three numeric/boolean replacements all three are settled. */
  lemma ThreeSettled(lines: seq<Line>, stars: nat, goodFirstIssues: nat, verified: bool)
    ensures var c := ReplaceFirst(ReplaceFirst(ReplaceFirst(lines, Stars, StarsLine(stars)),
                       GoodFirstIssues, GoodFirstIssuesLine(goodFirstIssues)), Verified, VerifiedLine(verified));
      && Settled(c, Stars, StarsLine(stars))
      && Settled(c, GoodFirstIssues, GoodFirstIssuesLine(goodFirstIssues))
      && Settled(c, Verified, VerifiedLine(verified))
  {
    NewLinesMatch(stars, goodFirstIssues, verified, "");
    var a := ReplaceFirst(lines, Stars, StarsLine(stars));
    var b := ReplaceFirst(a, GoodFirstIssues, GoodFirstIssuesLine(goodFirstIssues));
    ReplaceSettles(lines, Stars, StarsLine(stars));
    ReplaceKeepsSettled(a, GoodFirstIssues, GoodFirstIssuesLine(goodFirstIssues), Stars, StarsLine(stars));
    ReplaceSettles(a, GoodFirstIssues, GoodFirstIssuesLine(goodFirstIssues));
    ReplaceKeepsSettled(b, Verified, VerifiedLine(verified), Stars, StarsLine(stars));
    ReplaceKeepsSettled(b, Verified, VerifiedLine(verified), GoodFirstIssues, GoodFirstIssuesLine(goodFirstIssues));
    ReplaceSettles(b, Verified, VerifiedLine(verified));
  }

  /** The `primary_lang` step keeps another field settled. */
  lemma LangStepKeepsSettled(lines: seq<Line>, lang: Option<string>, f: Field, text: string)
    requires f != PrimaryLang
    requires Settled(lines, f, text)
    ensures Settled(SetPrimaryLang(lines, lang), f, text)
  {
    if Truthy(lang) {
      NewLinesMatch(0, 0, false, lang.value);
      if !Contains(Serialize(lines), LangKey) {
        if StartsWith(Serialize(lines), AddedAtPrefix) {
          assert !Matches(f, LangLine(lang.value)) by {
            if Matches(f, LangLine(lang.value)) {
              FieldsDisjoint(f, PrimaryLang, LangLine(lang.value));
            }
          }
          PrependKeepsSettled(Line(LangLine(lang.value), "\n"), lines, f, text);
        }
      } else {
        ReplaceKeepsSettled(lines, PrimaryLang, LangLine(lang.value), f, text);
      }
    }
  }

  lemma LangKeyClean()
    ensures NoTerminator(LangKey)
  {
  }

  /** A second `primary_lang` step after the first changes nothing. */
  lemma LangStepIdempotent(lines: seq<Line>, lang: Option<string>)
    requires WellFormed(lines)
    requires lang.Some? ==> NoTerminator(lang.value)
    ensures SetPrimaryLang(SetPrimaryLang(lines, lang), lang) == SetPrimaryLang(lines, lang)
  {
    if Truthy(lang) {
      if Contains(Serialize(lines), LangKey) {
        OverwriteIdempotent(lines, lang);
      } else if StartsWith(Serialize(lines), AddedAtPrefix) {
        InsertIdempotent(lines, lang);
      }
    }
  }

  lemma OverwriteIdempotent(lines: seq<Line>, lang: Option<string>)
    requires WellFormed(lines) && Truthy(lang) && NoTerminator(lang.value)
    requires Contains(Serialize(lines), LangKey)
    ensures SetPrimaryLang(SetPrimaryLang(lines, lang), lang) == SetPrimaryLang(lines, lang)
  {
    var l := LangLine(lang.value);
    NewLinesMatch(0, 0, false, lang.value);
    var y := ReplaceFirst(lines, PrimaryLang, l);
    assert SetPrimaryLang(lines, lang) == y;
    LangKeyClean();
    ContentContainsThenLine(lines, LangKey);
    var j :| 0 <= j < |lines| && Contains(lines[j].text, LangKey);
    LineContainsThenContent(y, j, LangKey);
    ReplaceSettles(lines, PrimaryLang, l);
    assert SetPrimaryLang(y, lang) == ReplaceFirst(y, PrimaryLang, l);
  }

  lemma InsertIdempotent(lines: seq<Line>, lang: Option<string>)
    requires WellFormed(lines) && Truthy(lang) && NoTerminator(lang.value)
    requires !Contains(Serialize(lines), LangKey) && StartsWith(Serialize(lines), AddedAtPrefix)
    ensures SetPrimaryLang(SetPrimaryLang(lines, lang), lang) == SetPrimaryLang(lines, lang)
  {
    NewLinesMatch(0, 0, false, lang.value);
    var y := InsertLangLine(lines, lang.value);
    assert SetPrimaryLang(lines, lang) == y;
    LineContainsThenContent(y, 0, LangKey);
    assert FirstMatch(y, PrimaryLang) == 0;
  }

  /** Rewriting twice with the same fetched values equals rewriting once. */
  lemma RewriteIdempotent(lines: seq<Line>, stars: nat, goodFirstIssues: nat, verified: bool,
                          lang: Option<string>)
    requires WellFormed(lines)
    requires lang.Some? ==> NoTerminator(lang.value)
    ensures var once := Rewrite(lines, stars, goodFirstIssues, verified, lang);
      Rewrite(once, stars, goodFirstIssues, verified, lang) == once
  {
    var a := ReplaceFirst(lines, Stars, StarsLine(stars));
    var b := ReplaceFirst(a, GoodFirstIssues, GoodFirstIssuesLine(goodFirstIssues));
    var c := ReplaceFirst(b, Verified, VerifiedLine(verified));
    NewLinesMatch(stars, goodFirstIssues, verified, "");
    NewLinesClean(stars, goodFirstIssues, verified);
    assert WellFormed(a) && WellFormed(b) && WellFormed(c);
    ThreeSettled(lines, stars, goodFirstIssues, verified);
    var y := SetPrimaryLang(c, lang);
    LangStepKeepsSettled(c, lang, Stars, StarsLine(stars));
    LangStepKeepsSettled(c, lang, GoodFirstIssues, GoodFirstIssuesLine(goodFirstIssues));
    LangStepKeepsSettled(c, lang, Verified, VerifiedLine(verified));
    SettledUnchanged(y, Stars, StarsLine(stars));
    SettledUnchanged(y, GoodFirstIssues, GoodFirstIssuesLine(goodFirstIssues));
    SettledUnchanged(y, Verified, VerifiedLine(verified));
    LangStepIdempotent(c, lang);
  }

  /** The same on file contents. */
  lemma RewriteContentIdempotent(content: string, stars: nat, goodFirstIssues: nat, verified: bool,
                                 lang: Option<string>)
    requires lang.Some? ==> NoTerminator(lang.value)
    ensures var once := RewriteContent(content, stars, goodFirstIssues, verified, lang);
      RewriteContent(once, stars, goodFirstIssues, verified, lang) == once
  {
    var y := Rewrite(Parse(content), stars, goodFirstIssues, verified, lang);
    ParseSerialize(y);
    RewriteIdempotent(Parse(content), stars, goodFirstIssues, verified, lang);
  }

  /** A `primary_lang = "..."` line puts the key into the file content. */
  lemma LangLineHasKey(lines: seq<Line>, k: nat)
    requires k < |lines| && Matches(PrimaryLang, lines[k].text)
    ensures Contains(Serialize(lines), LangKey)
  {
    assert lines[k].text[..|LangKey|] == LangKey;
    ContainsAt(lines[k].text, LangKey, 0);
    LineContainsThenContent(lines, k, LangKey);
  }

  /** `r` keeps every line of `lines`, terminators included, except the
      texts at the indices in `ks`. */
  predicate TouchedOnly(lines: seq<Line>, r: seq<Line>, ks: set<nat>) {
    && |r| == |lines|
    && (forall i :: 0 <= i < |lines| ==> r[i].eol == lines[i].eol)
    && (forall i :: 0 <= i < |lines| && i !in ks ==> r[i] == lines[i])
  }

  lemma TouchedOnlyTrans(a: seq<Line>, b: seq<Line>, c: seq<Line>, ks1: set<nat>, ks2: set<nat>)
    requires TouchedOnly(a, b, ks1) && TouchedOnly(b, c, ks2)
    ensures TouchedOnly(a, c, ks1 + ks2)
  {
  }

  /** Surgical: a field with no matching line is not inserted, and only
      the first matching line of each field changes, apart from a language
      line put in front; a fetched language always lands in the first
      `primary_lang` line when the file has one. */
  lemma RewriteTouchesFirstMatchesOnly(lines: seq<Line>, stars: nat, goodFirstIssues: nat, verified: bool,
                                       lang: Option<string>)
    ensures var r := Rewrite(lines, stars, goodFirstIssues, verified, lang);
      var ks := {FirstMatch(lines, Stars), FirstMatch(lines, GoodFirstIssues),
                 FirstMatch(lines, Verified), FirstMatch(lines, PrimaryLang)};
      && (TouchedOnly(lines, r, ks) ||
          (|r| > 0 && Truthy(lang) && r[0].text == LangLine(lang.value) && TouchedOnly(lines, r[1..], ks)))
      && (!Truthy(lang) ==> TouchedOnly(lines, r, ks))
      && (Truthy(lang) && FirstMatch(lines, PrimaryLang) < |lines| ==>
            |r| == |lines| && r[FirstMatch(lines, PrimaryLang)].text == LangLine(lang.value))
  {
    var c := ReplaceFirst(ReplaceFirst(ReplaceFirst(lines, Stars, StarsLine(stars)),
               GoodFirstIssues, GoodFirstIssuesLine(goodFirstIssues)), Verified, VerifiedLine(verified));
    var ks1 := {FirstMatch(lines, Stars), FirstMatch(lines, GoodFirstIssues), FirstMatch(lines, Verified)};
    var ks2 := {FirstMatch(lines, PrimaryLang)};
    ThreeTouched(lines, stars, goodFirstIssues, verified);
    LangStepTouched(c, lang);
    var r := SetPrimaryLang(c, lang);
    assert r == Rewrite(lines, stars, goodFirstIssues, verified, lang);
    var ks := {FirstMatch(lines, Stars), FirstMatch(lines, GoodFirstIssues),
               FirstMatch(lines, Verified), FirstMatch(lines, PrimaryLang)};
    assert ks1 + ks2 == ks;
    if |r| == |lines| {
      TouchedOnlyTrans(lines, c, r, ks1, ks2);
      assert TouchedOnly(lines, r, ks);
    } else {
      TouchedOnlyTrans(lines, c, c, ks1, ks2);
      assert r[1..] == c;
      assert TouchedOnly(lines, r[1..], ks);
    }
  }

  /** The three numeric/boolean replacements touch only their own first
      matches and leave the `primary_lang` first match where it was. */
  lemma ThreeTouched(lines: seq<Line>, stars: nat, goodFirstIssues: nat, verified: bool)
    ensures var c := ReplaceFirst(ReplaceFirst(ReplaceFirst(lines, Stars, StarsLine(stars)),
                       GoodFirstIssues, GoodFirstIssuesLine(goodFirstIssues)), Verified, VerifiedLine(verified));
      && TouchedOnly(lines, c, {FirstMatch(lines, Stars), FirstMatch(lines, GoodFirstIssues),
                                FirstMatch(lines, Verified)})
      && FirstMatch(c, PrimaryLang) == FirstMatch(lines, PrimaryLang)
  {
    var a := ReplaceFirst(lines, Stars, StarsLine(stars));
    var b := ReplaceFirst(a, GoodFirstIssues, GoodFirstIssuesLine(goodFirstIssues));
    NewLinesMatch(stars, goodFirstIssues, verified, "");
    ReplaceKeepsFirstMatch(lines, Stars, StarsLine(stars), GoodFirstIssues);
    ReplaceKeepsFirstMatch(a, GoodFirstIssues, GoodFirstIssuesLine(goodFirstIssues), Verified);
    ReplaceKeepsFirstMatch(lines, Stars, StarsLine(stars), Verified);
    ReplaceKeepsFirstMatch(lines, Stars, StarsLine(stars), PrimaryLang);
    ReplaceKeepsFirstMatch(a, GoodFirstIssues, GoodFirstIssuesLine(goodFirstIssues), PrimaryLang);
    ReplaceKeepsFirstMatch(b, Verified, VerifiedLine(verified), PrimaryLang);
  }

  /** The `primary_lang` step either puts the language line in front or
      changes at most the first `primary_lang` line, and it always fills
      that line when the file has one. */
  lemma LangStepTouched(lines: seq<Line>, lang: Option<string>)
    ensures var r := SetPrimaryLang(lines, lang);
      && (|r| == |lines| + 1 ==> Truthy(lang) && r[0].text == LangLine(lang.value) && r[1..] == lines)
      && (|r| == |lines| ==> TouchedOnly(lines, r, {FirstMatch(lines, PrimaryLang)}))
      && (Truthy(lang) && FirstMatch(lines, PrimaryLang) < |lines| ==>
            |r| == |lines| && r[FirstMatch(lines, PrimaryLang)].text == LangLine(lang.value))
  {
    var k := FirstMatch(lines, PrimaryLang);
    if Truthy(lang) && k < |lines| {
      LangLineHasKey(lines, k);
    }
  }
}
