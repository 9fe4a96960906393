/** From a keyword block of a language configuration to the `\SetKw...`
    lines of that language's style file (build-04-keywords.py, lines 73-208).

    A block is a keyword kind (`input`, `word`, `block`, `for`, `repeat`,
    `ifelif`, `switch`) with its translation table. `Normalize` fills the
    empty translations and braces the ones holding a space; `Texify` turns
    the block into LaTeX lines; `BuildTexTrans` chains both over all the
    blocks of one language while collecting every keyword seen.
 */
module Keywords {
  import opened Wrappers
  import opened Text
  import opened Tables

  // ---------------------------------------------------------------------
  // protect
  // ---------------------------------------------------------------------

  predicate Braced(v: string) {
    |v| >= 2 && v[0] == '{' && v[|v| - 1] == '}'
  }

  /** A translation can be passed as one LaTeX argument: if it holds a
      space, it is wrapped in a group. */
  predicate Protected(v: string) {
    ' ' in v ==> Braced(v)
  }

  /** `protect`: trims the word, then groups it if a space is left inside. */
  function Protect(word: string): (r: string)
    ensures ' ' in r <==> ' ' in Strip(word)
    ensures Protected(r)
    ensures r == [] || (!IsSpace(r[0]) && !IsSpace(r[|r| - 1]))
  {
    var w := Strip(word);
    if ' ' in w then "{" + w + "}" else w
  }

  /** Undoes `Protect`: takes the group off a braced translation with a space. */
  function Unprotect(v: string): string {
    if ' ' in v && Braced(v) then v[1..|v| - 1] else v
  }

  /** `Protect` loses nothing but the surrounding white space. */
  lemma ProtectRoundTrip(word: string)
    ensures Unprotect(Protect(word)) == Strip(word)
  {
    var w := Strip(word);
    if ' ' in w {
      var r := "{" + w + "}";
      assert r[1..|r| - 1] == w;
      assert ' ' in r by {
        var k :| 0 <= k < |w| && w[k] == ' ';
        assert r[k + 1] == ' ';
      }
    }
  }

  /** The second pass of `normalize`: only a translation holding a space is
      handed to `protect`. */
  function ProtectValue(v: string): (r: string)
    ensures Protected(r)
    ensures ' ' !in v ==> r == v
    ensures ' ' in v ==> r == Protect(v)
  {
    if ' ' in v then Protect(v) else v
  }

  // ---------------------------------------------------------------------
  // normalize
  // ---------------------------------------------------------------------

  /** `word[-1]` is only evaluated for an empty translation, and fails on an
      empty keyword: the source needs every such keyword to be non-empty. */
  predicate FillableKeys(t: Table) {
    forall i :: 0 <= i < |t| && t[i].1 == "" ==> t[i].0 != ""
  }

  /** What `lastchar.lower()` adds to the stem's translation. */
  function PluralMark(last: char): string {
    if last == 's' then "s" else ""
  }

  /** The automatic translation of `word` read from the table `cur` as it
      stands when the word is reached. */
  function AutoTranslation(cur: Table, word: string): string
    requires word != ""
  {
    var last := word[|word| - 1];
    if last == 's' || last == 'm' then
      match Find(cur, word[..|word| - 1])
      case Some(k) => cur[k].1 + PluralMark(last)
      case None => word
    else word
  }

  /** One turn of the first loop of `normalize`, at entry `i`. */
  function FillStep(cur: Table, i: nat): (r: Table)
    requires i < |cur| && (cur[i].1 == "" ==> cur[i].0 != "")
    ensures |r| == |cur|
    ensures forall j :: 0 <= j < |cur| && j != i ==> r[j] == cur[j]
    ensures r[i].0 == cur[i].0
    ensures cur[i].1 != "" ==> r[i] == cur[i]
  {
    var (word, wtrans) := cur[i];
    cur[i := (word, if wtrans == "" then AutoTranslation(cur, word) else wtrans)]
  }

  /** The translation entry `i` ends up with after the first loop of
      `normalize`, defined entry by entry. A keyword with an empty
      translation ending in `s` or `m` whose stem is also a keyword takes the
      stem's translation as it stands at that moment, followed by `s` for an
      `s` word: the filled one when the stem comes earlier, the given one
      when it comes later. Any other empty translation becomes the keyword
      itself, and a non-empty translation is kept. */
  function FilledValue(t: Table, i: nat): string
    requires FillableKeys(t) && i < |t|
    decreases i
  {
    var (w, v) := t[i];
    if v != "" then v
    else
      var last := w[|w| - 1];
      if last == 's' || last == 'm' then
        match Find(t, w[..|w| - 1])
        case Some(k) => (if k < i then FilledValue(t, k) else t[k].1) + PluralMark(last)
        case None => w
      else w
  }

  /** Turn `i` of the loop writes `FilledValue(t, i)`, provided the earlier
      entries already hold theirs and the later ones are still as given. */
  lemma FillStepValue(t: Table, cur: Table, i: nat)
    requires FillableKeys(t) && i < |t| && |cur| == |t|
    requires forall j :: 0 <= j < |t| ==> cur[j].0 == t[j].0
    requires forall j :: i <= j < |t| ==> cur[j] == t[j]
    requires forall j :: 0 <= j < i ==> cur[j].1 == FilledValue(t, j)
    ensures FillStep(cur, i)[i].1 == FilledValue(t, i)
  {
    assert cur[i] == t[i];
    if t[i].1 == "" {
      AutoTranslationFilled(t, cur, i);
    }
  }

  /** The automatic translation read from the partly filled table. */
  lemma AutoTranslationFilled(t: Table, cur: Table, i: nat)
    requires FillableKeys(t) && i < |t| && |cur| == |t| && t[i].1 == ""
    requires forall j :: 0 <= j < |t| ==> cur[j].0 == t[j].0
    requires forall j :: i <= j < |t| ==> cur[j] == t[j]
    requires forall j :: 0 <= j < i ==> cur[j].1 == FilledValue(t, j)
    ensures AutoTranslation(cur, t[i].0) == FilledValue(t, i)
  {
    var w := t[i].0;
    var last := w[|w| - 1];
    if last == 's' || last == 'm' {
      var stem := w[..|w| - 1];
      FindSameKeys(cur, t, stem);
      match Find(t, stem)
      case None =>
      case Some(k) =>
        if k < i {
          assert cur[k].1 == FilledValue(t, k);
        } else {
          assert cur[k] == t[k];
        }
    }
  }

  /** The first loop of `normalize` after its first `n` turns. The loop
      writes into the dictionary it iterates over, so turn `i` reads the
      entries before `i` already filled and the later ones as given. */
  function Fill(t: Table, n: nat): (r: Table)
    requires n <= |t| && FillableKeys(t)
    ensures |r| == |t|
    ensures forall i :: 0 <= i < |t| ==> r[i].0 == t[i].0
    ensures forall i :: n <= i < |t| ==> r[i] == t[i]
    ensures forall i :: 0 <= i < n ==> r[i].1 == FilledValue(t, i)
  {
    if n == 0 then t
    else
      var cur := Fill(t, n - 1);
      FillStepValue(t, cur, n - 1);
      FillStep(cur, n - 1)
  }

  /** The table once the first loop of `normalize` is over. */
  function AutoFill(t: Table): (r: Table)
    requires FillableKeys(t)
    ensures |r| == |t|
    ensures forall i :: 0 <= i < |t| ==> r[i] == (t[i].0, FilledValue(t, i))
  {
    Fill(t, |t|)
  }

  /** The auto-translation rule of `normalize`, read off the filled table:
      given translations are kept; an empty one ending in `s` or `m` whose
      stem is a keyword gets the stem's translation at that moment (filled
      if the stem comes first, as given otherwise) plus the plural mark;
      every other empty translation becomes the keyword itself. */
  lemma AutoFillEntry(t: Table, i: nat)
    requires FillableKeys(t) && i < |t|
    ensures t[i].1 != "" ==> AutoFill(t)[i] == t[i]
    ensures t[i].1 == "" ==>
      var w := t[i].0;
      var last := w[|w| - 1];
      var f := AutoFill(t);
      if (last == 's' || last == 'm') && Find(t, w[..|w| - 1]).Some? then
        var k := Find(t, w[..|w| - 1]).value;
        f[i].1 == (if k < i then f[k].1 else t[k].1) + PluralMark(last)
      else f[i].1 == w
  {
  }

  /** The second loop of `normalize`, applied to every entry. */
  function ProtectAll(t: Table): (r: Table)
    ensures |r| == |t|
    ensures forall i :: 0 <= i < |t| ==> r[i].0 == t[i].0 && Protected(r[i].1)
    ensures forall i :: 0 <= i < |t| && ' ' !in t[i].1 ==> r[i] == t[i]
    ensures forall i :: 0 <= i < |t| && ' ' in t[i].1 ==> r[i].1 == Protect(t[i].1)
  {
    seq(|t|, i requires 0 <= i < |t| => (t[i].0, ProtectValue(t[i].1)))
  }

  /** The table `normalize` returns: both loops, one after the other. */
  function NormalTable(trans: Table): (r: Table)
    requires FillableKeys(trans)
    ensures |r| == |trans| && forall i :: 0 <= i < |trans| ==> r[i].0 == trans[i].0
  {
    ProtectAll(AutoFill(trans))
  }

  /** The table returned by `normalize` and the grown `ALL_MACROS`. */
  datatype Normalized = Normalized(table: Table, macros: set<string>)

  /** `normalize`: same keys in the same order, every keyword added to
      `ALL_MACROS`, every translation made non-ambiguous as a LaTeX
      argument, and the given non-empty translations kept, protected when
      they hold a space. */
  function Normalize(trans: Table, allMacros: set<string>): (r: Normalized)
    requires FillableKeys(trans)
    ensures Keys(r.table) == Keys(trans)
    ensures r.macros == allMacros + KeySet(trans)
    ensures forall i :: 0 <= i < |trans| ==> Protected(r.table[i].1)
    ensures forall i :: 0 <= i < |trans| && trans[i].1 != "" && ' ' !in trans[i].1 ==>
      r.table[i].1 == trans[i].1
    ensures forall i :: 0 <= i < |trans| && ' ' in trans[i].1 ==>
      r.table[i].1 == Protect(trans[i].1)
    ensures forall i :: 0 <= i < |trans| ==> r.table[i].1 == ProtectValue(AutoFill(trans)[i].1)
  {
    Normalized(NormalTable(trans), allMacros + KeySet(trans))
  }

  lemma SameKeysSameKeySet(a: Table, b: Table)
    requires Keys(a) == Keys(b)
    ensures KeySet(a) == KeySet(b)
  {
    assert forall i :: 0 <= i < |a| ==> a[i].0 == Keys(b)[i];
    assert forall i :: 0 <= i < |b| ==> b[i].0 == Keys(a)[i];
  }

  /** Keys keep their order, so a dictionary stays a dictionary. */
  lemma NormalizeKeepsDistinct(trans: Table, allMacros: set<string>)
    requires FillableKeys(trans) && DistinctKeys(trans)
    ensures DistinctKeys(Normalize(trans, allMacros).table)
  {
    var r := Normalize(trans, allMacros).table;
    forall i, j | 0 <= i < j < |r|
      ensures r[i].0 != r[j].0
    {
      assert Keys(r)[i] == Keys(trans)[i];
      assert Keys(r)[j] == Keys(trans)[j];
    }
  }

  /** The order of the entries matters. A plural with an empty translation
      placed before its stem, itself with an empty translation, gets the
      stem's still-empty translation plus `s`, that is `s` alone... */
  lemma PluralBeforeEmptyStem(t: Table, i: nat, k: nat)
    requires FillableKeys(t) && DistinctKeys(t) && i < k < |t|
    requires t[i] == (t[k].0 + "s", "") && t[k].1 == ""
    ensures AutoFill(t)[i].1 == "s"
  {
    var w := t[i].0;
    assert w[..|w| - 1] == t[k].0;
    FindDistinct(t, k);
    AutoFillEntry(t, i);
  }

  /** ...whereas placed after it, the plural gets the stem's filled
      translation plus `s`. */
  lemma PluralAfterStem(t: Table, k: nat, i: nat)
    requires FillableKeys(t) && DistinctKeys(t) && k < i < |t|
    requires t[i] == (t[k].0 + "s", "")
    ensures AutoFill(t)[i].1 == AutoFill(t)[k].1 + "s"
  {
    var w := t[i].0;
    assert w[..|w| - 1] == t[k].0;
    FindDistinct(t, k);
    AutoFillEntry(t, i);
  }

  // ---------------------------------------------------------------------
  // macrodef, rawgather, texify
  // ---------------------------------------------------------------------

  /** `macrodef`: the `\SetKw...` command that declares keywords of a kind. */
  function MacroDef(kind: string): (r: string)
    ensures StartsWith(r, @"\SetKw")
    ensures kind == "word" ==> r == @"\SetKw"
    ensures kind == "ifelif" ==> r == @"\SetKwIF"
    ensures kind != "word" && kind != "ifelif" ==> r == @"\SetKw" + Title(kind)
  {
    var name := if kind == "word" then "" else if kind == "ifelif" then "IF" else Title(kind);
    @"\SetKw" + name
  }

  /** `title` lower-cases a letter that follows a letter, so it never
      produces `IF`. */
  lemma TitleNeverIF(s: string)
    ensures Title(s) != "IF"
  {
    if |s| == 2 {
      assert Title(s)[1] == LowerChar(s[1]) || Title(s)[0] != 'I';
    }
  }

  /** `\SetKwIF` comes from `ifelif` alone. */
  lemma MacroDefIF(kind: string)
    ensures MacroDef(kind) == @"\SetKwIF" <==> kind == "ifelif"
  {
    if kind != "word" && kind != "ifelif" {
      TitleNeverIF(kind);
      assert (@"\SetKw" + Title(kind))[6..] == Title(kind);
    }
  }

  /** The bare `\SetKw` comes from `word`, or from an empty kind. */
  lemma MacroDefBare(kind: string)
    ensures MacroDef(kind) == @"\SetKw" <==> kind == "word" || kind == ""
  {
    if kind != "word" && kind != "ifelif" && MacroDef(kind) == @"\SetKw" {
      assert (@"\SetKw" + Title(kind))[6..] == Title(kind);
    }
  }

  /** One keyword declaration: `macro{word}{translation}suffix`. */
  function KwLine(macro: string, word: string, wtrans: string, suffix: string): string {
    macro + "{" + word + "}{" + wtrans + "}" + suffix
  }

  /** `rawgather`: one declaration per entry, in table order. */
  function RawGather(macro: string, t: Table, suffix: string): (r: seq<string>)
    ensures |r| == |t|
    ensures forall i :: 0 <= i < |t| ==> r[i] == KwLine(macro, t[i].0, t[i].1, suffix)
  {
    if t == [] then []
    else RawGather(macro, t[..|t| - 1], suffix) + [KwLine(macro, t[|t| - 1].0, t[|t| - 1].1, suffix)]
  }

  /** Reads a declaration back: the keyword runs to the first `}`, the
      translation to the closing brace before the suffix. */
  function ParseKwLine(macro: string, suffix: string, line: string): Option<Entry> {
    var open := macro + "{";
    var close := "}" + suffix;
    if |line| >= |open| + |close| && line[..|open|] == open && line[|line| - |close|..] == close then
      var body := line[|open|..|line| - |close|];
      match IndexOf(body, '}')
      case Some(p) =>
        if p + 1 < |body| && body[p + 1] == '{' then Some((body[..p], body[p + 2..])) else None
      case None => None
    else None
  }

  lemma KwLineRoundTrip(macro: string, word: string, wtrans: string, suffix: string)
    requires '}' !in word
    ensures ParseKwLine(macro, suffix, KwLine(macro, word, wtrans, suffix)) == Some((word, wtrans))
  {
    var line := KwLine(macro, word, wtrans, suffix);
    var open := macro + "{";
    var close := "}" + suffix;
    var body := word + "}{" + wtrans;
    assert line == open + body + close;
    Framed(open, body, close);
    KwBodySplit(word, wtrans);
  }

  /** `open` and `close` frame what lies between them. */
  lemma Framed(open: string, body: string, close: string)
    ensures (open + body + close)[..|open|] == open
    ensures (open + body + close)[|open + body + close| - |close|..] == close
    ensures (open + body + close)[|open|..|open + body + close| - |close|] == body
  {
  }

  /** The first `}` of `word}{wtrans` is the one after the keyword. */
  lemma KwBodySplit(word: string, wtrans: string)
    requires '}' !in word
    ensures IndexOf(word + "}{" + wtrans, '}') == Some(|word|)
    ensures (word + "}{" + wtrans)[|word| + 1] == '{'
    ensures (word + "}{" + wtrans)[..|word|] == word
    ensures (word + "}{" + wtrans)[|word| + 2..] == wtrans
  {
    var body := word + "}{" + wtrans;
    assert body[..|word|] == word;
    assert body[|word| + 2..] == wtrans;
    assert body[|word|] == '}';
    assert forall j :: 0 <= j < |word| ==> body[j] == word[j];
  }

  /** Every line `rawgather` writes gives its entry back, provided no
      keyword holds a closing brace. */
  lemma RawGatherRoundTrip(macro: string, t: Table, suffix: string)
    requires forall i :: 0 <= i < |t| ==> '}' !in t[i].0
    ensures forall i :: 0 <= i < |t| ==> ParseKwLine(macro, suffix, RawGather(macro, t, suffix)[i]) == Some(t[i])
  {
    forall i | 0 <= i < |t|
      ensures ParseKwLine(macro, suffix, RawGather(macro, t, suffix)[i]) == Some(t[i])
    {
      KwLineRoundTrip(macro, t[i].0, t[i].1, suffix);
    }
  }

  /** Kinds declared with one line per keyword. */
  predicate IsListKind(kind: string) {
    kind == "input" || kind == "word" || kind == "block" || kind == "for"
  }

  /** Kinds declared by a single line built from fixed keywords. */
  predicate IsControlKind(kind: string) {
    kind == "repeat" || kind == "ifelif" || kind == "switch"
  }

  /** What follows each line of a list kind: nothing for `input` and
      `word`, an empty body for `block`, the `:` separator and an empty end
      for `for`. */
  function ListSuffix(kind: string): string {
    if kind == "block" then "{}" else if kind == "for" then "{:}{}" else ""
  }

  /** The keywords a control kind looks up, in the order it reads them. */
  function ControlKeys(kind: string): (ks: seq<string>)
    ensures |ks| == (if kind == "repeat" then 2 else 3)
  {
    if kind == "repeat" then ["Repeat", "Until"]
    else if kind == "ifelif" then ["If", "ElseIf", "Else"]
    else ["Switch", "Case", "Other"]
  }

  /** The single declaration of a control kind, from the translations of
      its `ControlKeys`. */
  function ControlLine(kind: string, macro: string, v: seq<string>): string
    requires |v| == |ControlKeys(kind)|
  {
    if kind == "repeat" then
      macro + "{Repeat}{" + v[0] + "}{" + v[1] + "}"
    else if kind == "ifelif" then
      macro + "{If}{ElseIf}{Else}{" + v[0] + "}{:}{" + v[1] + "}{" + v[2] + "}{}"
    else
      macro + "{Switch}{Case}{Other}{" + v[0] + "}{:}{" + v[1] + "}{" + v[2] + "}{}"
  }

  /** `texify` succeeds on this kind with a table holding these keys. */
  predicate Accepts(kind: string, keys: set<string>) {
    || IsListKind(kind)
    || (IsControlKind(kind) && forall j :: 0 <= j < |ControlKeys(kind)| ==> ControlKeys(kind)[j] in keys)
  }

  /** The number of lines `texify` writes for a kind. */
  function LineCount(kind: string, entries: nat): nat {
    if IsListKind(kind) then 2 + entries else 3
  }

  /** `texify`: a blank line, the `% Kind` comment, then the declarations:
      one per entry in table order for a list kind, a single one for a
      control kind. An unknown kind stops the program; a control kind with
      a missing keyword raises the `KeyError` of the first one it reads. */
  function Texify(kind: string, trans: Table): (r: Result<seq<string>>)
    ensures r.Ok? <==> Accepts(kind, KeySet(trans))
    ensures r.Ok? ==> |r.value| == LineCount(kind, |trans|)
    ensures r.Ok? ==> r.value[0] == "" && r.value[1] == "% " + Title(kind)
    ensures r.Ok? && IsControlKind(kind) ==>
      r.value[2] == ControlLine(kind, MacroDef(kind), Lookups(trans, ControlKeys(kind)).value)
    ensures !IsListKind(kind) && !IsControlKind(kind) ==> r == Err(UnknownKind(kind))
    ensures r.Err? && IsControlKind(kind) ==>
      r.error.MissingKey? && r.error.key in ControlKeys(kind) && r.error.key !in KeySet(trans)
    ensures r.Err? && IsControlKind(kind) ==>
      forall j :: 0 <= j < IndexOf(ControlKeys(kind), r.error.key).value ==> ControlKeys(kind)[j] in KeySet(trans)
  {
    var head := ["", "% " + Title(kind)];
    var macro := MacroDef(kind);
    if IsListKind(kind) then
      Ok(head + RawGather(macro, trans, ListSuffix(kind)))
    else if IsControlKind(kind) then
      var v :- Lookups(trans, ControlKeys(kind));
      Ok(head + [ControlLine(kind, macro, v)])
    else
      Err(UnknownKind(kind))
  }

  /** For a list kind, line `2 + i` declares entry `i`, with the kind's
      command and suffix. */
  lemma TexifyListLines(kind: string, trans: Table, i: nat)
    requires IsListKind(kind) && i < |trans|
    ensures Texify(kind, trans).Ok?
    ensures Texify(kind, trans).value[2 + i] == KwLine(MacroDef(kind), trans[i].0, trans[i].1, ListSuffix(kind))
  {
  }

  // ---------------------------------------------------------------------
  // build_tex_trans
  // ---------------------------------------------------------------------

  /** A keyword block: its kind and its table as read from the configuration. */
  type Block = (string, Table)

  /** What `build_tex_trans` produces for one language: its lines, the
      global `ALL_MACROS` and the language's entry of `ALL_TRANS`. */
  datatype LangBuild = LangBuild(lines: seq<string>, macros: set<string>, trans: map<string, string>)

  function AllKeys(blocks: seq<Block>): (ks: set<string>)
    ensures forall i :: 0 <= i < |blocks| ==> KeySet(blocks[i].1) <= ks
  {
    if blocks == [] then {} else KeySet(blocks[0].1) + AllKeys(blocks[1..])
  }

  function TotalLineCount(blocks: seq<Block>): nat {
    if blocks == [] then 0 else LineCount(blocks[0].0, |blocks[0].1|) + TotalLineCount(blocks[1..])
  }

  /** One turn of the loop of `build_tex_trans`: `normalize` the block,
      `texify` it and record its translations. */
  function BlockStep(block: Block, macros: set<string>, trans: map<string, string>): (r: Result<LangBuild>)
    requires FillableKeys(block.1)
    ensures r.Ok? <==> Accepts(block.0, KeySet(block.1))
    ensures r.Ok? ==> |r.value.lines| == LineCount(block.0, |block.1|)
    ensures r.Ok? ==> r.value.macros == macros + KeySet(block.1)
    ensures r.Ok? ==> r.value.trans.Keys == trans.Keys + KeySet(block.1)
  {
    var n := Normalize(block.1, macros);
    SameKeysSameKeySet(n.table, block.1);
    var lines :- Texify(block.0, n.table);
    Ok(LangBuild(lines, n.macros, UpdateMap(trans, n.table)))
  }

  /** One turn writes the normalized table into `ALL_TRANS[lang]` with
      `update`, whatever `ALL_MACROS` holds. */
  lemma BlockStepTrans(block: Block, macros: set<string>, trans: map<string, string>)
    requires FillableKeys(block.1) && BlockStep(block, macros, trans).Ok?
    ensures BlockStep(block, macros, trans).value.trans == UpdateMap(trans, NormalTable(block.1))
  {
  }

  /** One turn's lines are `texify` of the normalized table, whatever
      `ALL_MACROS` and `ALL_TRANS` hold, and it fails as `texify` does. */
  lemma BlockStepLines(block: Block, macros: set<string>, trans: map<string, string>)
    requires FillableKeys(block.1)
    ensures BlockStep(block, macros, trans).Ok? <==> Texify(block.0, NormalTable(block.1)).Ok?
    ensures BlockStep(block, macros, trans).Ok? ==>
      BlockStep(block, macros, trans).value.lines == Texify(block.0, NormalTable(block.1)).value
    ensures BlockStep(block, macros, trans).Err? ==>
      BlockStep(block, macros, trans).error == Texify(block.0, NormalTable(block.1)).error
  {
  }

  /** What one turn stores in `ALL_TRANS[lang]`: a keyword of the block
      gets its normalized translation, and every other keyword keeps its
      value. */
  lemma BlockStepStores(block: Block, macros: set<string>, trans: map<string, string>)
    requires FillableKeys(block.1) && BlockStep(block, macros, trans).Ok?
    ensures forall k :: k in trans && k !in KeySet(block.1) ==> BlockStep(block, macros, trans).value.trans[k] == trans[k]
    ensures DistinctKeys(block.1) ==> forall i :: 0 <= i < |block.1| ==>
      BlockStep(block, macros, trans).value.trans[block.1[i].0] == NormalTable(block.1)[i].1
  {
    BlockStepTrans(block, macros, trans);
    NormalTableKeySet(block.1);
    if DistinctKeys(block.1) {
      NormalTableDistinct(block.1);
    }
  }

  /** Every block of the list would be accepted by `texify`. */
  predicate AllAccepted(blocks: seq<Block>) {
    blocks == [] || (Accepts(blocks[0].0, KeySet(blocks[0].1)) && AllAccepted(blocks[1..]))
  }

  lemma {:induction false} AllAcceptedEach(blocks: seq<Block>)
    ensures AllAccepted(blocks) <==> forall i :: 0 <= i < |blocks| ==> Accepts(blocks[i].0, KeySet(blocks[i].1))
  {
    if blocks != [] {
      AllAcceptedEach(blocks[1..]);
      assert forall i :: 1 <= i < |blocks| ==> blocks[i] == blocks[1..][i - 1];
    }
  }

  /** `build_tex_trans`: normalizes and texifies the blocks in order and
      concatenates their lines. It succeeds exactly when every block's kind
      is known and has the keywords its layout needs. */
  function BuildTexTrans(blocks: seq<Block>, macros: set<string>, trans: map<string, string>): (r: Result<LangBuild>)
    requires forall i :: 0 <= i < |blocks| ==> FillableKeys(blocks[i].1)
    ensures r.Ok? <==> AllAccepted(blocks)
    ensures r.Ok? ==> |r.value.lines| == TotalLineCount(blocks)
    decreases |blocks|
  {
    if blocks == [] then Ok(LangBuild([], macros, trans))
    else
      var first :- BlockStep(blocks[0], macros, trans);
      var rest :- BuildTexTrans(blocks[1..], first.macros, first.trans);
      Ok(LangBuild(first.lines + rest.lines, rest.macros, rest.trans))
  }

  lemma UnionRegroup(a: set<string>, b: set<string>, c: set<string>)
    ensures (a + b) + c == a + (b + c)
  {
  }

  /** Every keyword of every block joins `ALL_MACROS`... */
  lemma {:induction false} BuildTexTransMacros(blocks: seq<Block>, macros: set<string>, trans: map<string, string>)
    requires forall i :: 0 <= i < |blocks| ==> FillableKeys(blocks[i].1)
    requires AllAccepted(blocks)
    ensures BuildTexTrans(blocks, macros, trans).Ok?
    ensures BuildTexTrans(blocks, macros, trans).value.macros == macros + AllKeys(blocks)
    decreases |blocks|
  {
    if blocks != [] {
      BuildTexTransFirst(blocks, macros, trans);
      var first := BlockStep(blocks[0], macros, trans).value;
      BuildTexTransMacros(blocks[1..], first.macros, first.trans);
      UnionRegroup(macros, KeySet(blocks[0].1), AllKeys(blocks[1..]));
    }
  }

  /** ...and the language's entry of `ALL_TRANS`. */
  lemma {:induction false} BuildTexTransTranslations(blocks: seq<Block>, macros: set<string>, trans: map<string, string>)
    requires forall i :: 0 <= i < |blocks| ==> FillableKeys(blocks[i].1)
    requires AllAccepted(blocks)
    ensures BuildTexTrans(blocks, macros, trans).Ok?
    ensures BuildTexTrans(blocks, macros, trans).value.trans.Keys == trans.Keys + AllKeys(blocks)
    decreases |blocks|
  {
    if blocks != [] {
      BuildTexTransFirst(blocks, macros, trans);
      var first := BlockStep(blocks[0], macros, trans).value;
      BuildTexTransTranslations(blocks[1..], first.macros, first.trans);
      UnionRegroup(trans.Keys, KeySet(blocks[0].1), AllKeys(blocks[1..]));
    }
  }

  /** The `\SetKw...` section of a language computed block by block:
      every block normalized and texified on its own, the lines
      concatenated in block order. Nothing carried from block to block
      enters it. */
  function TexLines(blocks: seq<Block>): Result<seq<string>>
    requires forall i :: 0 <= i < |blocks| ==> FillableKeys(blocks[i].1)
    decreases |blocks|
  {
    if blocks == [] then Ok([])
    else
      var first :- Texify(blocks[0].0, NormalTable(blocks[0].1));
      var rest :- TexLines(blocks[1..]);
      Ok(first + rest)
  }

  /** The lines of `build_tex_trans` are the per-block `texify` outputs of
      the normalized tables, concatenated in order, whatever `ALL_MACROS`
      and `ALL_TRANS` held before; a failure is the first block's failure. */
  lemma {:induction false} BuildTexTransLines(blocks: seq<Block>, macros: set<string>, trans: map<string, string>)
    requires forall i :: 0 <= i < |blocks| ==> FillableKeys(blocks[i].1)
    ensures BuildTexTrans(blocks, macros, trans).Ok? <==> TexLines(blocks).Ok?
    ensures BuildTexTrans(blocks, macros, trans).Ok? ==> BuildTexTrans(blocks, macros, trans).value.lines == TexLines(blocks).value
    ensures BuildTexTrans(blocks, macros, trans).Err? ==> BuildTexTrans(blocks, macros, trans).error == TexLines(blocks).error
    decreases |blocks|
  {
    if blocks != [] {
      var step := BlockStep(blocks[0], macros, trans);
      BlockStepLines(blocks[0], macros, trans);
      if step.Ok? {
        BuildTexTransLines(blocks[1..], step.value.macros, step.value.trans);
      }
    }
  }

  /** One turn of `build_tex_trans` on an accepted list: the first block's
      step succeeds and the rest of the list runs from its result. */
  lemma {:induction false} BuildTexTransFirst(blocks: seq<Block>, macros: set<string>, trans: map<string, string>)
    requires blocks != [] && forall j :: 0 <= j < |blocks| ==> FillableKeys(blocks[j].1)
    requires AllAccepted(blocks)
    ensures BlockStep(blocks[0], macros, trans).Ok? && AllAccepted(blocks[1..])
    ensures BuildTexTrans(blocks[1..], BlockStep(blocks[0], macros, trans).value.macros, BlockStep(blocks[0], macros, trans).value.trans).Ok?
    ensures
      var first := BlockStep(blocks[0], macros, trans).value;
      var rest := BuildTexTrans(blocks[1..], first.macros, first.trans).value;
      BuildTexTrans(blocks, macros, trans) == Ok(LangBuild(first.lines + rest.lines, rest.macros, rest.trans))
  {
  }

  /** The normalized table of every block, in block order. */
  function NormalTables(blocks: seq<Block>): (ts: seq<Table>)
    requires forall i :: 0 <= i < |blocks| ==> FillableKeys(blocks[i].1)
    ensures |ts| == |blocks| && forall i :: 0 <= i < |blocks| ==> ts[i] == NormalTable(blocks[i].1)
    decreases |blocks|
  {
    if blocks == [] then [] else [NormalTable(blocks[0].1)] + NormalTables(blocks[1..])
  }

  /** A successful `build_tex_trans` stores in the language's entry of
      `ALL_TRANS` what one `update` per normalized table, in block order,
      would: nothing `texify` does changes a stored translation. */
  lemma {:induction false} BuildTexTransStores(blocks: seq<Block>, macros: set<string>, trans: map<string, string>, k: string)
    requires forall i :: 0 <= i < |blocks| ==> FillableKeys(blocks[i].1)
    requires AllAccepted(blocks) && k in UpdateAll(trans, NormalTables(blocks))
    ensures k in BuildTexTrans(blocks, macros, trans).value.trans
    ensures BuildTexTrans(blocks, macros, trans).value.trans[k] == UpdateAll(trans, NormalTables(blocks))[k]
    decreases |blocks|
  {
    if blocks != [] {
      BuildTexTransFirst(blocks, macros, trans);
      BlockStepTrans(blocks[0], macros, trans);
      var first := BlockStep(blocks[0], macros, trans).value;
      UpdateAllNormalTables(trans, blocks);
      BuildTexTransStores(blocks[1..], first.macros, first.trans, k);
    }
  }

  /** The first block's table is the first `update`. */
  lemma UpdateAllNormalTables(trans: map<string, string>, blocks: seq<Block>)
    requires blocks != [] && forall i :: 0 <= i < |blocks| ==> FillableKeys(blocks[i].1)
    ensures UpdateAll(trans, NormalTables(blocks))
         == UpdateAll(UpdateMap(trans, NormalTable(blocks[0].1)), NormalTables(blocks[1..]))
  {
    var ts := NormalTables(blocks);
    assert ts[1..] == NormalTables(blocks[1..]);
  }

  lemma NormalTableKeySet(t: Table)
    requires FillableKeys(t)
    ensures KeySet(NormalTable(t)) == KeySet(t)
  {
    SameKeysSameKeySet(NormalTable(t), t);
  }

  lemma NormalTableDistinct(t: Table)
    requires FillableKeys(t) && DistinctKeys(t)
    ensures DistinctKeys(NormalTable(t))
  {
    var n := NormalTable(t);
    forall a, b | 0 <= a < b < |n|
      ensures n[a].0 != n[b].0
    {
      assert n[a].0 == t[a].0 && n[b].0 == t[b].0;
    }
  }

  /** The keyword of entry `e` of block `i`, when no later block defines it
      again, ends up in `ALL_TRANS` with its normalized translation from
      block `i`: a later block's `update` overwrites an earlier one's. */
  lemma BuildTexTransValue(blocks: seq<Block>, macros: set<string>, trans: map<string, string>, i: nat, e: nat)
    requires forall j :: 0 <= j < |blocks| ==> FillableKeys(blocks[j].1)
    requires AllAccepted(blocks)
    requires i < |blocks| && DistinctKeys(blocks[i].1) && e < |blocks[i].1|
    requires forall j :: i < j < |blocks| ==> blocks[i].1[e].0 !in KeySet(blocks[j].1)
    ensures BuildTexTrans(blocks, macros, trans).Ok?
    ensures blocks[i].1[e].0 in BuildTexTrans(blocks, macros, trans).value.trans
    ensures BuildTexTrans(blocks, macros, trans).value.trans[blocks[i].1[e].0] == NormalTable(blocks[i].1)[e].1
  {
    var ts: seq<Table> := NormalTables(blocks);
    NormalTableDistinct(blocks[i].1);
    forall j | i < j < |ts|
      ensures ts[i][e].0 !in KeySet(ts[j])
    {
      NormalTableKeySet(blocks[j].1);
    }
    UpdateAllValue(trans, ts, i, e);
    BuildTexTransStores(blocks, macros, trans, blocks[i].1[e].0);
  }

  /** A keyword no block defines keeps its translation in `ALL_TRANS`. */
  lemma BuildTexTransKeeps(blocks: seq<Block>, macros: set<string>, trans: map<string, string>, k: string)
    requires forall i :: 0 <= i < |blocks| ==> FillableKeys(blocks[i].1)
    requires AllAccepted(blocks)
    requires k in trans && forall j :: 0 <= j < |blocks| ==> k !in KeySet(blocks[j].1)
    ensures BuildTexTrans(blocks, macros, trans).Ok?
    ensures k in BuildTexTrans(blocks, macros, trans).value.trans
    ensures BuildTexTrans(blocks, macros, trans).value.trans[k] == trans[k]
  {
    var ts: seq<Table> := NormalTables(blocks);
    forall j | 0 <= j < |ts|
      ensures k !in KeySet(ts[j])
    {
      NormalTableKeySet(blocks[j].1);
    }
    UpdateAllKeeps(trans, ts, k);
    BuildTexTransStores(blocks, macros, trans, k);
  }
}
