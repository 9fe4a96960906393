/** The body of one language's style file (build-04-keywords.py, lines
    221-274): the `\SetKw...` lines of the language indented under its
    `\uselang...` command, and the ten textual macros such as `\TTif` and
    `\ALrepeat` built from the language's collected translations.
 */
module LangStyle {
  import opened Wrappers
  import opened Text
  import opened Tables
  import opened Keywords

  /** The four-space indentation `DECO`. */
  const Deco: string := "    "

  /** A comment line stays at the margin; every other line is indented. */
  function IndentLine(l: string): string {
    if StartsWith(l, "%") then l else Deco + l
  }

  /** Takes the indentation back off a line that `IndentLine` indented. */
  function DedentLine(l: string): string {
    if StartsWith(l, "%") || |l| < |Deco| then l else l[|Deco|..]
  }

  lemma IndentLineRoundTrip(l: string)
    ensures DedentLine(IndentLine(l)) == l
  {
    if !StartsWith(l, "%") {
      var d := Deco + l;
      assert d[0] == ' ';
      assert !StartsWith(d, "%");
      assert d[|Deco|..] == l;
    }
  }

  /** The per-language pass: the first line (the blank line that opens the
      first block) is dropped, comment lines are kept as they are and every
      other line gets four spaces in front. */
  function IndentBody(lines: seq<string>): (r: seq<string>)
    ensures |r| == if |lines| == 0 then 0 else |lines| - 1
    ensures forall i :: 0 <= i < |r| ==> StartsWith(lines[i + 1], "%") ==> r[i] == lines[i + 1]
    ensures forall i :: 0 <= i < |r| ==> !StartsWith(lines[i + 1], "%") ==> r[i] == Deco + lines[i + 1]
  {
    if |lines| == 0 then []
    else seq(|lines| - 1, i requires 0 <= i < |lines| - 1 => IndentLine(lines[i + 1]))
  }

  /** Removing the indentation again gives back every line but the first. */
  lemma IndentBodyRoundTrip(lines: seq<string>)
    requires |lines| >= 1
    ensures |IndentBody(lines)| == |lines| - 1
    ensures forall i :: 0 <= i < |lines| - 1 ==> DedentLine(IndentBody(lines)[i]) == lines[i + 1]
  {
    forall i | 0 <= i < |lines| - 1
      ensures DedentLine(IndentBody(lines)[i]) == lines[i + 1]
    {
      IndentLineRoundTrip(lines[i + 1]);
    }
  }

  /** `TEX_TRANS[lang]`: the indented lines joined by newlines. */
  function LangSection(lines: seq<string>): string {
    Join("\n", IndentBody(lines))
  }

  /** Read back line by line, the section holds exactly the indented lines,
      one fewer than were generated, provided no generated line holds a
      newline. */
  lemma LangSectionLines(lines: seq<string>)
    requires |lines| >= 2
    requires forall i :: 0 <= i < |lines| ==> '\n' !in lines[i]
    ensures SplitLines(LangSection(lines)) == IndentBody(lines)
    ensures |SplitLines(LangSection(lines))| == |lines| - 1
  {
    var body := IndentBody(lines);
    forall i | 0 <= i < |body|
      ensures '\n' !in body[i]
    {
      var l := lines[i + 1];
      if !StartsWith(l, "%") {
        assert body[i] == Deco + l;
        assert forall k :: 0 <= k < |Deco| ==> body[i][k] == ' ';
        assert forall k :: |Deco| <= k < |body[i]| ==> body[i][k] == l[k - |Deco|];
      }
    }
    SplitJoinLines(body);
  }

  // ---------------------------------------------------------------------
  // Textual macros
  // ---------------------------------------------------------------------

  /** The controls in the order of the source's table, each with the extra
      keywords whose translations follow its own. */
  const Controls: seq<(string, seq<string>)> :=
    [("If", ["Else"]), ("For", []), ("While", []), ("Repeat", ["Until"]), ("Switch", ["Case"])]

  /** The keywords the textual macros read from `ALL_TRANS[lang]`. */
  const TextKeys: seq<string> := ["If", "Else", "For", "While", "Repeat", "Until", "Switch", "Case"]

  /** The ten macro names, `TT` ones first. */
  const MacroNames: seq<string> :=
    ["TTif", "TTfor", "TTwhile", "TTrepeat", "TTswitch", "ALif", "ALfor", "ALwhile", "ALrepeat", "ALswitch"]

  /** `[trans[k] for k in keys]`, stopping at the first `KeyError`. */
  function MapLookups(tr: map<string, string>, keys: seq<string>): (r: Result<seq<string>>)
    ensures r.Ok? <==> forall j :: 0 <= j < |keys| ==> keys[j] in tr
    ensures r.Ok? ==> |r.value| == |keys| && forall j :: 0 <= j < |keys| ==> r.value[j] == tr[keys[j]]
    ensures r.Err? ==> r.error.MissingKey? && r.error.key in keys && r.error.key !in tr
    ensures r.Err? ==> forall j :: 0 <= j < IndexOf(keys, r.error.key).value ==> keys[j] in tr
  {
    if keys == [] then Ok([])
    else if keys[0] !in tr then Err(MissingKey(keys[0]))
    else
      var rest :- MapLookups(tr, keys[1..]);
      Ok([tr[keys[0]]] + rest)
  }

  /** `\newcommand\name{\formatter{text}}`. */
  function NewCommand(name: string, formatter: string, text: string): string {
    @"\newcommand\" + name + @"{\" + formatter + "{" + text + "}}"
  }

  /** The translations of one control joined with a dash for `If` and with
      a space otherwise. */
  function ControlText(control: string, texts: seq<string>): string {
    if control == "If" then Join(@"\,--\,", texts) else Join(" ", texts)
  }

  /** The macro for one prefix and control: its text upper-cased in
      typewriter type for `TT` and as it is in bold for `AL`. */
  function TextMacro(prefix: string, control: string, texts: seq<string>): string {
    if prefix == "TT" then NewCommand(prefix + Lower(control), "texttt", Upper(ControlText(control, texts)))
    else NewCommand(prefix + Lower(control), "textbf", ControlText(control, texts))
  }

  /** The inner loop over the controls for one prefix. */
  function PrefixMacros(tr: map<string, string>, prefix: string, controls: seq<(string, seq<string>)>): (r: Result<seq<string>>)
    ensures r.Ok? <==> forall j :: 0 <= j < |controls| ==> MapLookups(tr, [controls[j].0] + controls[j].1).Ok?
    ensures r.Ok? ==> |r.value| == |controls|
    ensures r.Ok? ==> forall j :: 0 <= j < |controls| ==>
      r.value[j] == TextMacro(prefix, controls[j].0, MapLookups(tr, [controls[j].0] + controls[j].1).value)
    ensures r.Err? ==> r.error.MissingKey? && r.error.key !in tr
  {
    if controls == [] then Ok([])
    else
      var texts :- MapLookups(tr, [controls[0].0] + controls[0].1);
      var rest :- PrefixMacros(tr, prefix, controls[1..]);
      Ok([TextMacro(prefix, controls[0].0, texts)] + rest)
  }

  /** Everything a pass looks up, in the order it looks it up: each control
      followed by its extras. */
  function Reads(controls: seq<(string, seq<string>)>): (ks: seq<string>)
    ensures forall j :: 0 <= j < |controls| ==> controls[j].0 in ks
  {
    if controls == [] then [] else [controls[0].0] + controls[0].1 + Reads(controls[1..])
  }

  /** Looking up `a + b` fails on `a`'s first missing key, or on `b`'s when
      all of `a` is present. */
  lemma {:induction false} MapLookupsAppend(tr: map<string, string>, a: seq<string>, b: seq<string>)
    ensures MapLookups(tr, a + b).Ok? <==> MapLookups(tr, a).Ok? && MapLookups(tr, b).Ok?
    ensures MapLookups(tr, a).Err? ==> MapLookups(tr, a + b) == Err(MapLookups(tr, a).error)
    ensures MapLookups(tr, a).Ok? && MapLookups(tr, b).Err? ==> MapLookups(tr, a + b) == Err(MapLookups(tr, b).error)
    decreases |a|
  {
    if a != [] {
      assert (a + b)[0] == a[0] && (a + b)[1..] == a[1..] + b;
      MapLookupsAppend(tr, a[1..], b);
    } else {
      assert a + b == b;
    }
  }

  /** A pass fails exactly as looking up everything it reads, in order,
      would: with the first missing key of `Reads(controls)`. */
  lemma {:induction false} PrefixMacrosReads(tr: map<string, string>, prefix: string, controls: seq<(string, seq<string>)>)
    ensures PrefixMacros(tr, prefix, controls).Ok? <==> MapLookups(tr, Reads(controls)).Ok?
    ensures PrefixMacros(tr, prefix, controls).Err? ==>
      PrefixMacros(tr, prefix, controls).error == MapLookups(tr, Reads(controls)).error
    decreases |controls|
  {
    if controls != [] {
      var first := [controls[0].0] + controls[0].1;
      PrefixMacrosReads(tr, prefix, controls[1..]);
      MapLookupsAppend(tr, first, Reads(controls[1..]));
    }
  }

  /** Control `j` is the first that cannot be read, and it fails with `e`. */
  predicate FirstFailure(tr: map<string, string>, controls: seq<(string, seq<string>)>, j: nat, e: Error) {
    && j < |controls|
    && MapLookups(tr, [controls[j].0] + controls[j].1) == Err(e)
    && forall j' :: 0 <= j' < j ==> MapLookups(tr, [controls[j'].0] + controls[j'].1).Ok?
  }

  /** The position of the first control that cannot be read, or the
      number of controls when every one can. */
  function FirstUnreadable(tr: map<string, string>, controls: seq<(string, seq<string>)>): (j: nat)
    ensures j <= |controls|
    decreases |controls|
  {
    if controls == [] then 0
    else if MapLookups(tr, [controls[0].0] + controls[0].1).Err? then 0
    else 1 + FirstUnreadable(tr, controls[1..])
  }

  /** Looking up everything the controls read fails at the first control
      that cannot be read, with that control's error. */
  lemma {:induction false} ReadsError(tr: map<string, string>, controls: seq<(string, seq<string>)>)
    requires MapLookups(tr, Reads(controls)).Err?
    ensures FirstFailure(tr, controls, FirstUnreadable(tr, controls), MapLookups(tr, Reads(controls)).error)
    decreases |controls|
  {
    var first := [controls[0].0] + controls[0].1;
    MapLookupsAppend(tr, first, Reads(controls[1..]));
    if MapLookups(tr, first).Ok? {
      ReadsError(tr, controls[1..]);
      var j := FirstUnreadable(tr, controls[1..]);
      assert controls[1..][j] == controls[j + 1];
      forall j' | 0 <= j' < j + 1
        ensures MapLookups(tr, [controls[j'].0] + controls[j'].1).Ok?
      {
        if j' > 0 {
          assert controls[1..][j' - 1] == controls[j'];
        }
      }
    }
  }

  /** A failed pass reports the `KeyError` of the first control that cannot
      be read; every control before it reads successfully. */
  lemma PrefixMacrosError(tr: map<string, string>, prefix: string, controls: seq<(string, seq<string>)>)
    requires PrefixMacros(tr, prefix, controls).Err?
    ensures FirstFailure(tr, controls, FirstUnreadable(tr, controls), PrefixMacros(tr, prefix, controls).error)
  {
    PrefixMacrosReads(tr, prefix, controls);
    ReadsError(tr, controls);
  }

  /** What the builder produces for one language: the macro lines and the
      names it records for the documentation, `latexmacros["TT"]` followed
      by `latexmacros["AL"]`. */
  datatype TextMacros = TextMacros(lines: seq<string>, docNames: seq<string>)

  /** What each control reads, spelled out. */
  lemma ControlReads()
    ensures [Controls[0].0] + Controls[0].1 == ["If", "Else"]
    ensures [Controls[1].0] + Controls[1].1 == ["For"]
    ensures [Controls[2].0] + Controls[2].1 == ["While"]
    ensures [Controls[3].0] + Controls[3].1 == ["Repeat", "Until"]
    ensures [Controls[4].0] + Controls[4].1 == ["Switch", "Case"]
  {
  }

  /** Every keyword a control reads is one of the eight. */
  lemma ControlsUseTextKeys()
    ensures forall j :: 0 <= j < |Controls| ==> forall e :: e in [Controls[j].0] + Controls[j].1 ==> e in TextKeys
  {
    ControlReads();
  }

  /** A pass reads the eight keywords in the order of `TextKeys`. */
  lemma ReadsOfControls()
    ensures Reads(Controls) == TextKeys
  {
    ControlReads();
    assert Controls[1..][1..][1..][1..][1..] == [];
  }

  /** The five controls can all be read exactly when the eight keywords are present. */
  lemma ControlsReadTextKeys(tr: map<string, string>)
    ensures (forall j :: 0 <= j < |TextKeys| ==> TextKeys[j] in tr)
        <==> (forall j :: 0 <= j < |Controls| ==> MapLookups(tr, [Controls[j].0] + Controls[j].1).Ok?)
  {
    PrefixMacrosReads(tr, "TT", Controls);
    ReadsOfControls();
  }

  /** The builder for one language: ten macros, `TT` then `AL`, each over
      `If`, `For`, `While`, `Repeat` and `Switch`; the names are recorded for
      the documentation only for English. It fails exactly when one of the
      eight keywords it reads is missing, which the `TT` pass finds first:
      the `AL` pass reads the same keywords. */
  function BuildTextMacros(lang: string, tr: map<string, string>): (r: Result<TextMacros>)
    ensures r.Ok? <==> forall j :: 0 <= j < |TextKeys| ==> TextKeys[j] in tr
    ensures r.Ok? ==> |r.value.lines| == 10
    ensures r.Ok? ==> r.value.docNames == if lang == "english" then MacroNames else []
    ensures r.Err? ==> r.error.MissingKey? && r.error.key in TextKeys && r.error.key !in tr
    ensures r.Err? ==> forall j :: 0 <= j < IndexOf(TextKeys, r.error.key).value ==> TextKeys[j] in tr
  {
    ControlsReadTextKeys(tr);
    var tt := PrefixMacros(tr, "TT", Controls);
    if tt.Err? then
      PrefixMacrosReads(tr, "TT", Controls);
      ReadsOfControls();
      Err(tt.error)
    else
      var al := PrefixMacros(tr, "AL", Controls).value;
      Ok(TextMacros(tt.value + al, if lang == "english" then MacroNames else []))
  }

  /** The text of control `i`, written out from the translations: `If` and
      `Else` around a dash, `Repeat` then `Until`, `Switch` then `Case`,
      and `For` and `While` alone. */
  function ReferenceText(tr: map<string, string>, i: nat): string
    requires i < 5 && forall j :: 0 <= j < |TextKeys| ==> TextKeys[j] in tr
  {
    assert TextKeys[0] == "If" && TextKeys[1] == "Else" && TextKeys[2] == "For" && TextKeys[3] == "While";
    assert TextKeys[4] == "Repeat" && TextKeys[5] == "Until" && TextKeys[6] == "Switch" && TextKeys[7] == "Case";
    if i == 0 then tr["If"] + @"\,--\," + tr["Else"]
    else if i == 1 then tr["For"]
    else if i == 2 then tr["While"]
    else if i == 3 then tr["Repeat"] + " " + tr["Until"]
    else tr["Switch"] + " " + tr["Case"]
  }

  /** The joined translations of control `i` are the written-out text. */
  lemma ControlTextReference(tr: map<string, string>, i: nat)
    requires i < 5 && forall j :: 0 <= j < |TextKeys| ==> TextKeys[j] in tr
    ensures MapLookups(tr, [Controls[i].0] + Controls[i].1).Ok?
    ensures ControlText(Controls[i].0, MapLookups(tr, [Controls[i].0] + Controls[i].1).value) == ReferenceText(tr, i)
  {
    ControlsReadTextKeys(tr);
    var c := Controls[i];
    var texts := MapLookups(tr, [c.0] + c.1).value;
    if i == 0 {
      assert texts == [tr["If"], tr["Else"]];
    } else if i == 1 || i == 2 {
      assert texts == [tr[c.0]];
    } else if i == 3 {
      assert texts == [tr["Repeat"], tr["Until"]];
    } else {
      assert texts == [tr["Switch"], tr["Case"]];
    }
  }

  /** The builder's lines are the `TT` pass followed by the `AL` pass. */
  lemma BuildTextMacrosPasses(lang: string, tr: map<string, string>)
    requires forall j :: 0 <= j < |TextKeys| ==> TextKeys[j] in tr
    ensures PrefixMacros(tr, "TT", Controls).Ok? && PrefixMacros(tr, "AL", Controls).Ok?
    ensures BuildTextMacros(lang, tr).Ok?
    ensures BuildTextMacros(lang, tr).value.lines
         == PrefixMacros(tr, "TT", Controls).value + PrefixMacros(tr, "AL", Controls).value
  {
    ControlsReadTextKeys(tr);
  }

  /** Line `i` of the builder, from the written-out text: the `TT` macro
      of control `i`, upper-cased in typewriter type. */
  lemma BuildTextMacrosTT(lang: string, tr: map<string, string>, i: nat)
    requires i < 5 && forall j :: 0 <= j < |TextKeys| ==> TextKeys[j] in tr
    ensures BuildTextMacros(lang, tr).Ok?
    ensures BuildTextMacros(lang, tr).value.lines[i]
      == NewCommand(MacroNames[i], "texttt", Upper(ReferenceText(tr, i)))
  {
    BuildTextMacrosPasses(lang, tr);
    ControlTextReference(tr, i);
    ControlName(i);
  }

  /** Line `i + 5` of the builder: the `AL` macro of control `i`, the same
      text as it is, in bold. */
  lemma BuildTextMacrosAL(lang: string, tr: map<string, string>, i: nat)
    requires i < 5 && forall j :: 0 <= j < |TextKeys| ==> TextKeys[j] in tr
    ensures BuildTextMacros(lang, tr).Ok?
    ensures BuildTextMacros(lang, tr).value.lines[i + 5]
      == NewCommand(MacroNames[i + 5], "textbf", ReferenceText(tr, i))
  {
    BuildTextMacrosPasses(lang, tr);
    ControlTextReference(tr, i);
    ControlName(i);
  }

  /** `control.lower()` for the five controls. */
  lemma ControlName(i: nat)
    requires i < 5
    ensures "TT" + Lower(Controls[i].0) == MacroNames[i]
    ensures "AL" + Lower(Controls[i].0) == MacroNames[i + 5]
  {
    var c := Controls[i].0;
    var l := Lower(c);
    assert l[0] == (c[0] as int + 32) as char;
    assert l[1..] == c[1..];
  }

  /** `DECO + "\n    ".join(lines)`: each macro on a line of its own,
      indented by four spaces. */
  function TextBlock(lines: seq<string>): string {
    Deco + Join("\n" + Deco, lines)
  }

  lemma {:induction false} TextBlockIndentsEachLine(lines: seq<string>)
    requires |lines| >= 1
    ensures TextBlock(lines) == Join("\n", seq(|lines|, i requires 0 <= i < |lines| => Deco + lines[i]))
  {
    var ind := seq(|lines|, i requires 0 <= i < |lines| => Deco + lines[i]);
    if |lines| > 1 {
      TextBlockIndentsEachLine(lines[1..]);
      var rest := seq(|lines| - 1, i requires 0 <= i < |lines| - 1 => Deco + lines[1..][i]);
      assert ind[1..] == rest;
      assert Join("\n", ind) == ind[0] + "\n" + Join("\n", rest);
      assert Join("\n" + Deco, lines) == lines[0] + ("\n" + Deco) + Join("\n" + Deco, lines[1..]);
    }
  }
}
