/** Field splitting of an expanded value by IFS (expand/expand.go, wordFields): the loop that counts
    separators and emits empty fields late, against an automaton that decides at each character.
    A value is a sequence of characters as the range loop yields them. */
module FieldSplit {
  import opened Common

  /** A piece of a field; a quoted empty piece is what makes an empty field exist. */
  datatype Part = Part(quoted: bool, val: string)

  function Text(parts: seq<Part>): string {
    if parts == [] then "" else Text(parts[..|parts| - 1]) + parts[|parts| - 1].val
  }

  function Texts(fields: seq<seq<Part>>): (r: seq<string>)
    ensures |r| == |fields|
  {
    seq(|fields|, k requires 0 <= k < |fields| => Text(fields[k]))
  }

  predicate IsWs(c: char) { c == ' ' || c == '\t' || c == '\n' }

  /** How many of these characters are delimiters by themselves. */
  function NonWs(s: string): nat {
    if s == "" then 0 else NonWs(s[..|s| - 1]) + if IsWs(s[|s| - 1]) then 0 else 1
  }

  predicate AllIfs(ifs: string, s: string) { forall k :: 0 <= k < |s| ==> s[k] in ifs }

  // ---------- One character at a time ----------

  /** The texts of the closed fields, of the open one if any, and whether the last field was closed by
      whitespace alone, so that one delimiter may still join in. */
  datatype View = View(fields: seq<string>, cur: Option<string>, soft: bool)

  function Step(ifs: string, v: View, c: char): View {
    if c !in ifs then View(v.fields, Some((if v.cur.Some? then v.cur.value else "") + [c]), false)
    else if v.cur.Some? then View(v.fields + [v.cur.value], None, IsWs(c))
    else if IsWs(c) then v
    else if v.soft then v.(soft := false)
    else v.(fields := v.fields + [""])
  }

  function Run(ifs: string, v: View, s: string): View {
    if s == "" then v else Step(ifs, Run(ifs, v, s[..|s| - 1]), s[|s| - 1])
  }

  lemma {:induction false} RunAppend(ifs: string, v: View, x: string, y: string)
    ensures Run(ifs, v, x + y) == Run(ifs, Run(ifs, v, x), y)
  {
    hide Step;
    if y == "" {
      assert x + y == x;
    } else {
      assert (x + y)[..|x + y| - 1] == x + y[..|y| - 1];
      RunAppend(ifs, v, x, y[..|y| - 1]);
    }
  }

  lemma RunOne(ifs: string, v: View, c: char)
    ensures Run(ifs, v, [c]) == Step(ifs, v, c)
  {
    hide Step;
    assert [c][..0] == "";
  }

  lemma RunFirst(ifs: string, v: View, s: string)
    requires s != ""
    ensures Run(ifs, v, s) == Run(ifs, Step(ifs, v, s[0]), s[1..])
  {
    hide Step, Run;
    assert s == [s[0]] + s[1..];
    RunAppend(ifs, v, [s[0]], s[1..]);
    RunOne(ifs, v, s[0]);
  }

  function Empties(n: nat): (r: seq<string>)
    ensures |r| == n
  {
    seq(n, _ => "")
  }

  /** What a run of separators does: it closes the open field if there is one, and each of its
      non-whitespace characters closes an empty field, save the one that closed the open field. */
  function Separated(v: View, w: string): View {
    if w == "" then v
    else if v.cur.Some? then
      View(v.fields + [v.cur.value] + Empties(if NonWs(w) == 0 then 0 else NonWs(w) - 1), None, NonWs(w) == 0)
    else View(v.fields + Empties(NonWs(w)), None, false)
  }

  lemma {:induction false} RunSeparators(ifs: string, v: View, w: string)
    requires AllIfs(ifs, w) && !v.soft
    ensures Run(ifs, v, w) == Separated(v, w)
  {
    hide Step, Separated;
    if w == "" {
      SeparatedNothing(v);
    } else {
      var init, c := w[..|w| - 1], w[|w| - 1];
      RunSeparators(ifs, v, init);
      SeparatedStep(ifs, v, init, c);
      assert w == init + [c];
    }
  }

  lemma SeparatedNothing(v: View)
    ensures Separated(v, "") == v
  {
  }

  lemma NonWsLast(init: string, c: char)
    ensures NonWs(init + [c]) == NonWs(init) + if IsWs(c) then 0 else 1
  {
    assert (init + [c])[..|init|] == init;
  }

  lemma EmptiesGrow(f: seq<string>, n: nat)
    ensures f + Empties(n) + [""] == f + Empties(n + 1) && f + Empties(0) == f
  {
  }

  lemma SeparatedStep(ifs: string, v: View, init: string, c: char)
    requires c in ifs && !v.soft
    ensures Step(ifs, Separated(v, init), c) == Separated(v, init + [c])
  {
    hide Empties, NonWs, IsWs;
    NonWsLast(init, c);
    var base := if v.cur.Some? then v.fields + [v.cur.value] else v.fields;
    EmptiesGrow(base, NonWs(init));
    if NonWs(init) > 0 {
      EmptiesGrow(base, NonWs(init) - 1);
    }
    if init == "" {
      NonWsNothing();
    }
  }

  lemma NonWsNothing()
    ensures NonWs("") == 0
  {
  }

  // ---------- A whole value ----------

  /** Where the value's trailing run of separators starts. */
  function RunStart(ifs: string, s: string): (t: nat)
    ensures t <= |s| && AllIfs(ifs, s[t..]) && (t > 0 ==> s[t - 1] !in ifs)
  {
    if s == "" || s[|s| - 1] !in ifs then |s|
    else
      assert s == s[..|s| - 1] + [s[|s| - 1]];
      RunStart(ifs, s[..|s| - 1])
  }

  lemma RunStartIs(ifs: string, s: string, t: nat)
    requires t <= |s| && AllIfs(ifs, s[t..]) && (t > 0 ==> s[t - 1] !in ifs)
    ensures RunStart(ifs, s) == t
  {
    hide RunStart;
    SuffixIfs(ifs, s, t);
    SuffixIfs(ifs, s, RunStart(ifs, s));
  }

  lemma SuffixIfs(ifs: string, s: string, t: nat)
    requires t <= |s|
    ensures AllIfs(ifs, s[t..]) <==> forall j :: t <= j < |s| ==> s[j] in ifs
  {
    if AllIfs(ifs, s[t..]) {
      forall j | t <= j < |s| ensures s[j] in ifs {
        assert s[t..][j - t] == s[j];
      }
    }
  }

  /** The value ends in a run of separators that follows some field. */
  predicate EndsAfterField(ifs: string, v: View, val: string) {
    RunStart(ifs, val) < |val| && (RunStart(ifs, val) > 0 || v.cur.Some?)
  }

  /** ... that run holding whitespace only. */
  predicate EndsSoft(ifs: string, v: View, val: string) {
    EndsAfterField(ifs, v, val) && NonWs(val[RunStart(ifs, val)..]) == 0
  }

  /** ... that run holding a delimiter of its own. */
  predicate EndsHard(ifs: string, v: View, val: string) {
    EndsAfterField(ifs, v, val) && NonWs(val[RunStart(ifs, val)..]) > 0
  }

  /** What adding a value to the fields means. */
  function Added(ifs: string, v: View, val: string, keepTrailing: bool): View {
    var r := Run(ifs, v.(soft := false), val);
    if keepTrailing && EndsHard(ifs, v, val) then r.(fields := r.fields + [""]) else r
  }

  predicate SameTexts(a: View, b: View) { a.fields == b.fields && a.cur == b.cur }

  // ---------- The loop ----------

  lemma TextAppend(a: seq<Part>, p: Part)
    ensures Text(a + [p]) == Text(a) + p.val
  {
    assert (a + [p])[..|a|] == a;
  }

  lemma TextsAppend(fields: seq<seq<Part>>, f: seq<Part>)
    ensures Texts(fields + [f]) == Texts(fields) + [Text(f)]
  {
  }

  function OpenText(parts: seq<Part>): Option<string> {
    if parts == [] then None else Some(Text(parts))
  }

  /** The run so far, at a place outside every run of separators. */
  function Outside(fields: seq<seq<Part>>, curField: seq<Part>, piece: string): View {
    View(Texts(fields), if curField == [] && piece == "" then None else Some(Text(curField) + piece), false)
  }

  lemma OutsideNow(fields: seq<seq<Part>>, curField: seq<Part>)
    ensures Outside(fields, curField, "") == View(Texts(fields), OpenText(curField), false)
  {
    assert Text(curField) + "" == Text(curField);
  }

  lemma StepText(ifs: string, v: View, fields: seq<seq<Part>>, curField: seq<Part>, piece: string, c: char)
    requires c !in ifs && SameTexts(v, Outside(fields, curField, piece))
    ensures Step(ifs, v, c) == Outside(fields, curField, piece + [c])
  {
    assert curField == [] ==> Text(curField) == "";
    assert Text(curField) + piece + [c] == Text(curField) + (piece + [c]);
  }

  lemma RunSnoc(ifs: string, v: View, val: string, i: nat)
    requires i < |val|
    ensures Run(ifs, v, val[..i + 1]) == Step(ifs, Run(ifs, v, val[..i]), val[i])
  {
    hide Step;
    assert val[..i + 1][..i] == val[..i];
  }

  lemma RunAcross(ifs: string, v: View, val: string, start: nat, i: nat)
    requires start <= i <= |val| && AllIfs(ifs, val[start..i]) && !Run(ifs, v, val[..start]).soft
    ensures Run(ifs, v, val[..i]) == Separated(Run(ifs, v, val[..start]), val[start..i])
  {
    hide Step, Run, Separated;
    assert val[..i] == val[..start] + val[start..i];
    RunAppend(ifs, v, val[..start], val[start..i]);
    RunSeparators(ifs, Run(ifs, v, val[..start]), val[start..i]);
  }

  class Splitter {
    const ifs: string
    var fields: seq<seq<Part>>
    var curField: seq<Part>
    /** Set while splitting an element of a list that is not its last. */
    var keepTrailing: bool

    constructor (ifs: string)
      ensures this.ifs == ifs && fields == [] && curField == [] && !keepTrailing
    {
      this.ifs, fields, curField, keepTrailing := ifs, [], [], false;
    }

    function Now(): View
      reads this
    {
      View(Texts(fields), OpenText(curField), false)
    }

    method Flush()
      modifies this`fields, this`curField
      ensures curField == []
      ensures fields == if old(curField) == [] then old(fields) else old(fields) + [old(curField)]
    {
      if |curField| == 0 {
        return;
      }
      fields := fields + [curField];
      curField := [];
    }

    method EmitEmpty()
      modifies this`fields, this`curField
      ensures curField == []
      ensures Texts(fields) == old(Texts(fields)) + [old(Text(curField))]
    {
      TextAppend(curField, Part(true, ""));
      assert Text(curField) + "" == Text(curField);
      TextsAppend(fields, curField + [Part(true, "")]);
      curField := curField + [Part(true, "")];
      Flush();
    }

    method EmitEmpties(n: int)
      requires curField == []
      modifies this`fields, this`curField
      ensures curField == []
      ensures Texts(fields) == old(Texts(fields)) + Empties(if n < 0 then 0 else n)
    {
      var k := 0;
      EmptiesGrow(Texts(fields), 0);
      while k < n
        invariant 0 <= k && (n >= 0 ==> k <= n) && (n < 0 ==> k == 0) && curField == []
        invariant Texts(fields) == old(Texts(fields)) + Empties(k)
      {
        EmptiesGrow(old(Texts(fields)), k);
        EmitEmpty();
        k := k + 1;
      }
    }

    /** Ending the open field at a separator: the piece of this value, or what stood before it. */
    method CloseField(piece: string)
      requires curField != [] || piece != ""
      modifies this`fields, this`curField
      ensures curField == []
      ensures Texts(fields) == old(Texts(fields)) + [old(Text(curField)) + piece]
    {
      if piece != "" {
        TextAppend(curField, Part(false, piece));
        curField := curField + [Part(false, piece)];
      }
      assert Text(curField) + "" == Text(curField);
      TextsAppend(fields, curField);
      Flush();
    }

    method SplitAdd(val: string)
      modifies this`fields, this`curField
      ensures SameTexts(Now(), Added(ifs, old(Now()), val, keepTrailing))
    {
      hide Step, Run, Separated, Text, Texts, NonWs, RunStart, IsWs, Empties, Closes;
      ghost var v := Now();
      var fieldStart, inSepRun, runNonWS, flushedPrefix := -1, false, 0, false;
      ghost var start := 0;
      assert val[..0] == "";
      RunNothing(ifs, v);
      OutsideNow(fields, curField);
      for i := 0 to |val|
        invariant inSepRun ==> fieldStart == -1 && curField == [] && start < i && AllIfs(ifs, val[start..i])
        invariant inSepRun ==> runNonWS == NonWs(val[start..i]) && (start > 0 ==> val[start - 1] !in ifs)
        invariant inSepRun ==> (flushedPrefix <==> start > 0 || v.cur.Some?)
        invariant inSepRun ==> Closes(Run(ifs, v, val[..start]), Texts(fields), flushedPrefix)
        invariant !inSepRun ==> (i > 0 <==> fieldStart >= 0) && fieldStart < i && (i > 0 ==> val[i - 1] !in ifs)
        invariant !inSepRun && i == 0 ==> !flushedPrefix && Now() == v
        invariant !inSepRun ==>
                    Run(ifs, v, val[..i]) == Outside(fields, curField, if fieldStart < 0 then "" else val[fieldStart..i])
      {
        var r := val[i];
        if r in ifs {
          if fieldStart >= 0 {
            CloseField(val[fieldStart..i]);
            flushedPrefix := true;
            fieldStart := -1;
          } else if !inSepRun && |curField| > 0 {
            CloseField("");
            flushedPrefix := true;
          }
          if !inSepRun {
            StartRun(Run(ifs, v, val[..i]), Texts(fields), flushedPrefix);
            inSepRun := true;
            runNonWS := 0;
            start := i;
          }
          RunGrows(val, start, i);
          if !IsWs(r) {
            runNonWS := runNonWS + 1;
          }
          continue;
        }
        if inSepRun {
          RunEnds(ifs, v, val, start, i, Texts(fields), flushedPrefix);
          if runNonWS == 0 {
            EmitEmpties(0);
          } else if !flushedPrefix {
            EmitEmpties(runNonWS);
          } else {
            EmitEmpties(runNonWS - 1);
          }
          inSepRun := false;
          runNonWS := 0;
          OutsideNow(fields, curField);
        }
        if fieldStart < 0 {
          fieldStart := i;
        }
        RunSnoc(ifs, v, val, i);
        StepText(ifs, Run(ifs, v, val[..i]), fields, curField, val[fieldStart..i], r);
        SliceGrows(val, fieldStart, i);
      }
      assert val[..|val|] == val;
      if fieldStart >= 0 {
        TextAppend(curField, Part(false, val[fieldStart..]));
        curField := curField + [Part(false, val[fieldStart..])];
      }
      if inSepRun {
        assert val[start..|val|] == val[start..];
        RunStartIs(ifs, val, start);
        RunEnds(ifs, v, val, start, |val|, Texts(fields), flushedPrefix);
      } else {
        RunStartIs(ifs, val, |val|);
      }
      if inSepRun && runNonWS > 0 {
        var extra := runNonWS - 1;
        if !flushedPrefix && |curField| == 0 {
          extra := runNonWS;
        } else if keepTrailing {
          extra := runNonWS;
        }
        EmptiesGrow(Texts(fields), runNonWS - 1);
        EmitEmpties(extra);
      }
    }

    /** One element of a list: every element but the last keeps its trailing empty field, and an empty
        one may be a field itself. */
    method SplitAddElem(val: string, last: bool, preserveEmpty: bool)
      requires !keepTrailing
      modifies this`fields, this`curField, this`keepTrailing
      ensures !keepTrailing
      ensures val != "" ==> SameTexts(Now(), Added(ifs, old(Now()), val, !last))
      ensures val == "" && preserveEmpty && !last ==>
                Now() == View(old(Now()).fields + [if old(Now()).cur.Some? then old(Now()).cur.value else ""], None, false)
      ensures val == "" && !(preserveEmpty && !last) ==> Now() == old(Now())
    {
      hide Added, Texts;
      if val == "" {
        if preserveEmpty && !last {
          EmitEmpty();
        }
        return;
      }
      keepTrailing := !last;
      SplitAdd(val);
      keepTrailing := false;
    }
  }

  lemma RunNothing(ifs: string, v: View)
    ensures Run(ifs, v, "") == v
  {
  }

  /** A run of separators starts: the closed fields now are those before it and the one it closed. */
  predicate Closes(at: View, texts: seq<string>, closed: bool) {
    !at.soft && (closed <==> at.cur.Some?) && texts == at.fields + if closed then [at.cur.value] else []
  }

  lemma SliceGrows(val: string, start: nat, i: nat)
    requires start <= i < |val|
    ensures val[start..i] + [val[i]] == val[start..i + 1]
  {
  }

  lemma RunGrows(val: string, start: nat, i: nat)
    requires start <= i < |val|
    ensures val[start..i + 1] == val[start..i] + [val[i]]
    ensures NonWs(val[start..i + 1]) == NonWs(val[start..i]) + if IsWs(val[i]) then 0 else 1
    ensures NonWs(val[i..i]) == 0
  {
    assert val[start..i + 1] == val[start..i] + [val[i]];
    NonWsLast(val[start..i], val[i]);
  }

  lemma StartRun(at: View, texts: seq<string>, closed: bool)
    requires !at.soft && (closed <==> at.cur.Some?) && texts == at.fields + if closed then [at.cur.value] else []
    ensures Closes(at, texts, closed)
  {
  }

  /** What is still to be emitted when a run ends. */
  lemma RunEnds(ifs: string, v: View, val: string, start: nat, i: nat, texts: seq<string>, closed: bool)
    requires start < i <= |val| && AllIfs(ifs, val[start..i])
    requires Closes(Run(ifs, v, val[..start]), texts, closed)
    ensures var n := NonWs(val[start..i]);
            Run(ifs, v, val[..i]) == View(texts + Empties(if closed && n > 0 then n - 1 else n), None, closed && n == 0)
  {
    hide NonWs, Empties, Run;
    RunAcross(ifs, v, val, start, i);
  }

  // ---------- What splitting keeps and counts ----------

  function Joined(fields: seq<string>): string {
    if fields == [] then "" else Joined(fields[..|fields| - 1]) + fields[|fields| - 1]
  }

  /** All the text there is, in order. */
  function AllText(v: View): string {
    Joined(v.fields) + if v.cur.Some? then v.cur.value else ""
  }

  function WithoutIfs(ifs: string, s: string): string {
    if s == "" then "" else WithoutIfs(ifs, s[..|s| - 1]) + if s[|s| - 1] in ifs then "" else [s[|s| - 1]]
  }

  lemma JoinedAppend(fields: seq<string>, f: string)
    ensures Joined(fields + [f]) == Joined(fields) + f
  {
    assert (fields + [f])[..|fields|] == fields;
  }

  lemma StepKeepsText(ifs: string, v: View, c: char)
    ensures AllText(Step(ifs, v, c)) == AllText(v) + if c in ifs then "" else [c]
  {
    hide Joined;
    JoinedAppend(v.fields, if v.cur.Some? then v.cur.value else "");
    assert AllText(v) + "" == AllText(v);
    if c !in ifs {
      var open := if v.cur.Some? then v.cur.value else "";
      assert Joined(v.fields) + (open + [c]) == Joined(v.fields) + open + [c];
    }
  }

  lemma {:induction false} RunKeepsText(ifs: string, v: View, s: string)
    ensures AllText(Run(ifs, v, s)) == AllText(v) + WithoutIfs(ifs, s)
  {
    hide Step, AllText;
    if s == "" {
      assert AllText(v) + "" == AllText(v);
    } else {
      var init, c := s[..|s| - 1], s[|s| - 1];
      RunKeepsText(ifs, v, init);
      StepKeepsText(ifs, Run(ifs, v, init), c);
      var last := if c in ifs then "" else [c];
      assert AllText(v) + WithoutIfs(ifs, init) + last == AllText(v) + (WithoutIfs(ifs, init) + last);
    }
  }

  /** Splitting loses no text but the separators and reorders none. */
  lemma SplittingKeepsText(ifs: string, v: View, val: string, keepTrailing: bool)
    requires !v.soft
    ensures AllText(Added(ifs, v, val, keepTrailing)) == AllText(v) + WithoutIfs(ifs, val)
  {
    hide Joined, Run, WithoutIfs, RunStart;
    RunKeepsText(ifs, v, val);
    var r := Run(ifs, v, val);
    if keepTrailing && EndsHard(ifs, v, val) {
      JoinedAppend(r.fields, "");
      assert Joined(r.fields) + "" == Joined(r.fields);
    }
  }

  /** How many separators the value starts with. */
  function LeadingRun(ifs: string, s: string): (n: nat)
    ensures n <= |s| && AllIfs(ifs, s[..n]) && (n < |s| ==> s[n] !in ifs)
  {
    if s == "" || s[0] !in ifs then 0
    else
      assert forall n :: 0 <= n <= |s| - 1 ==> s[..n + 1] == [s[0]] + s[1..][..n];
      LeadingRun(ifs, s[1..]) + 1
  }

  /** The whitespace-only runs that find a field open: open says whether one is at the start. */
  function SoftRuns(ifs: string, open: bool, s: string): nat
    decreases |s|
  {
    if s == "" then 0
    else
      var n := LeadingRun(ifs, s);
      if n == 0 then SoftRuns(ifs, true, s[1..])
      else (if open && NonWs(s[..n]) == 0 then 1 else 0) + SoftRuns(ifs, false, s[n..])
  }

  lemma NonWsSplits(a: string, b: string)
    ensures NonWs(a + b) == NonWs(a) + NonWs(b)
  {
    if b == "" {
      assert a + b == a;
    } else {
      assert (a + b)[..|a + b| - 1] == a + b[..|b| - 1];
      NonWsSplits(a, b[..|b| - 1]);
    }
  }

  /** Delimiters: the separators that are not whitespace. */
  function Delimiters(ifs: string, s: string): nat {
    if s == "" then 0
    else Delimiters(ifs, s[1..]) + if s[0] in ifs && !IsWs(s[0]) then 1 else 0
  }

  lemma {:induction false} DelimitersOfRun(ifs: string, w: string, rest: string)
    requires AllIfs(ifs, w)
    ensures Delimiters(ifs, w + rest) == NonWs(w) + Delimiters(ifs, rest)
    decreases |w|
  {
    if w == "" {
      assert w + rest == rest;
    } else {
      assert (w + rest)[1..] == w[1..] + rest;
      DelimitersOfRun(ifs, w[1..], rest);
      assert w == [w[0]] + w[1..];
      NonWsSplits([w[0]], w[1..]);
      assert [w[0]][..0] == "";
    }
  }

  /** One field is closed for each delimiter, and one for each run of whitespace alone that ends one. */
  lemma {:induction false} FieldCount(ifs: string, v: View, s: string)
    requires !v.soft
    ensures |Run(ifs, v, s).fields| == |v.fields| + Delimiters(ifs, s) + SoftRuns(ifs, v.cur.Some?, s)
    decreases |s|
  {
    hide Run, Separated, Empties, LeadingRun, Step, NonWs, IsWs, SoftRuns, Delimiters;
    SoftRunsStep(ifs, v.cur.Some?, s);
    if s == "" {
      RunNothing(ifs, v);
    } else {
      var n := LeadingRun(ifs, s);
      if n == 0 {
        RunFirst(ifs, v, s);
        StepShape(ifs, v, s[0]);
        FieldCount(ifs, Step(ifs, v, s[0]), s[1..]);
      } else {
        var w, rest := s[..n], s[n..];
        assert s == w + rest;
        RunAppend(ifs, v, w, rest);
        RunSeparators(ifs, v, w);
        DelimitersOfRun(ifs, w, rest);
        SeparatedShape(v, w);
        var u := Separated(v, w);
        SoftRunsStep(ifs, false, rest);
        if rest == "" {
          RunNothing(ifs, u);
        } else {
          assert rest[0] == s[n];
          LeadingNone(ifs, rest);
          RunFirst(ifs, u, rest);
          StepShape(ifs, u, rest[0]);
          FieldCount(ifs, Step(ifs, u, rest[0]), rest[1..]);
        }
      }
    }
  }

  lemma LeadingNone(ifs: string, s: string)
    requires s != "" && s[0] !in ifs
    ensures LeadingRun(ifs, s) == 0
  {
  }

  /** One step of the two counts. */
  lemma SoftRunsStep(ifs: string, open: bool, s: string)
    ensures s == "" ==> SoftRuns(ifs, open, s) == 0 && Delimiters(ifs, s) == 0
    ensures s != "" && LeadingRun(ifs, s) == 0 ==>
              SoftRuns(ifs, open, s) == SoftRuns(ifs, true, s[1..]) && Delimiters(ifs, s) == Delimiters(ifs, s[1..])
    ensures LeadingRun(ifs, s) > 0 ==>
              SoftRuns(ifs, open, s) ==
              (if open && NonWs(s[..LeadingRun(ifs, s)]) == 0 then 1 else 0)
              + SoftRuns(ifs, false, s[LeadingRun(ifs, s)..])
  {
    hide NonWs;
  }

  lemma StepShape(ifs: string, v: View, c: char)
    requires c !in ifs
    ensures Step(ifs, v, c).fields == v.fields && Step(ifs, v, c).cur.Some? && !Step(ifs, v, c).soft
  {
  }

  lemma SeparatedShape(v: View, w: string)
    requires w != "" && !v.soft
    ensures |Separated(v, w).fields| == |v.fields| + NonWs(w) + if v.cur.Some? && NonWs(w) == 0 then 1 else 0
    ensures Separated(v, w).cur == None
  {
    hide NonWs;
  }

  // ---------- Splitting in two goes ----------

  /** Whether one delimiter may still join the last field's end is whether the value ends softly. */
  lemma SoftMeans(ifs: string, v: View, val: string)
    requires !v.soft
    ensures Run(ifs, v, val).soft <==> EndsSoft(ifs, v, val)
  {
    hide Run, Separated, Step, NonWs, RunStart, Empties;
    var t := RunStart(ifs, val);
    assert val[..|val|] == val && val[t..|val|] == val[t..];
    RunNothing(ifs, v);
    assert val[..0] == "";
    if t > 0 {
      RunSnoc(ifs, v, val, t - 1);
      StepShape(ifs, Run(ifs, v, val[..t - 1]), val[t - 1]);
    }
    RunAcross(ifs, v, val, t, |val|);
    SeparatedSoft(Run(ifs, v, val[..t]), val[t..]);
  }

  lemma SeparatedSoft(v: View, w: string)
    requires !v.soft
    ensures Separated(v, w).soft <==> w != "" && v.cur.Some? && NonWs(w) == 0
  {
    hide NonWs;
  }

  /** From a soft end, the first delimiter of a leading run is lost; nothing else differs. */
  lemma {:induction false} SoftOrNot(ifs: string, v: View, y: string)
    requires v.soft && v.cur == None
    ensures SameTexts(Run(ifs, v, y), Run(ifs, v.(soft := false), y)) <==> NonWs(y[..LeadingRun(ifs, y)]) == 0
    decreases |y|
  {
    hide Run, NonWs, IsWs, LeadingRun;
    var u := v.(soft := false);
    if y == "" {
      RunNothing(ifs, v);
      RunNothing(ifs, u);
      NonWsNothing();
      assert y[..LeadingRun(ifs, y)] == "";
    } else {
      RunFirst(ifs, v, y);
      RunFirst(ifs, u, y);
      LeadingStep(ifs, y);
      if y[0] in ifs {
        if IsWs(y[0]) {
          SoftOrNot(ifs, v, y[1..]);
        } else {
          MoreFieldsStay(ifs, u, u.fields + [""], y[1..]);
        }
      }
    }
  }

  lemma LeadingMore(ifs: string, y: string)
    requires y != ""
    ensures LeadingRun(ifs, y) == if y[0] in ifs then LeadingRun(ifs, y[1..]) + 1 else 0
  {
  }

  lemma LeadingStep(ifs: string, y: string)
    requires y != ""
    ensures y[0] !in ifs ==> NonWs(y[..LeadingRun(ifs, y)]) == 0
    ensures y[0] in ifs ==> NonWs(y[..LeadingRun(ifs, y)]) ==
                            (if IsWs(y[0]) then 0 else 1) + NonWs(y[1..][..LeadingRun(ifs, y[1..])])
  {
    hide IsWs, NonWs, LeadingRun, AllIfs;
    LeadingMore(ifs, y);
    if y[0] in ifs {
      var n := LeadingRun(ifs, y[1..]);
      assert y[..n + 1] == [y[0]] + y[1..][..n];
      NonWsSplits([y[0]], y[1..][..n]);
      NonWsNothing();
      NonWsLast("", y[0]);
      assert "" + [y[0]] == [y[0]];
    } else {
      NonWsNothing();
      assert y[..0] == "";
    }
  }

  /** What was closed before stays closed, whatever follows. */
  lemma {:induction false} MoreFieldsStay(ifs: string, v: View, fields: seq<string>, s: string)
    ensures |Run(ifs, v.(fields := fields), s).fields| - |fields| == |Run(ifs, v, s).fields| - |v.fields|
    ensures Run(ifs, v.(fields := fields), s).cur == Run(ifs, v, s).cur
    ensures Run(ifs, v.(fields := fields), s).soft == Run(ifs, v, s).soft
  {
    hide IsWs;
    if s != "" { MoreFieldsStay(ifs, v, fields, s[..|s| - 1]); }
  }

  /** Adding two values in turn is adding them joined, except exactly when the first ends in whitespace
      that closed a field and the second starts with a run that holds a delimiter. */
  lemma SplitTwice(ifs: string, v: View, x: string, y: string)
    requires !v.soft
    ensures SameTexts(Added(ifs, Added(ifs, v, x, false), y, false), Added(ifs, v, x + y, false))
            <==> !(EndsSoft(ifs, v, x) && NonWs(y[..LeadingRun(ifs, y)]) > 0)
  {
    hide Run, EndsSoft, LeadingRun, NonWs;
    var mid := Run(ifs, v, x);
    RunAppend(ifs, v, x, y);
    SoftMeans(ifs, v, x);
    if mid.soft {
      SoftIsClosed(ifs, v, x);
      SoftOrNot(ifs, mid, y);
    }
  }

  lemma {:induction false} SoftIsClosed(ifs: string, v: View, s: string)
    requires !v.soft && Run(ifs, v, s).soft
    ensures Run(ifs, v, s).cur == None
  {
    hide IsWs;
    if s != "" {
      var u := Run(ifs, v, s[..|s| - 1]);
      if u.soft { SoftIsClosed(ifs, v, s[..|s| - 1]); }
    }
  }

  /** The smallest case: a space, then a colon. */
  lemma SpaceThenColon()
    ensures var ifs, v := " :", View([], None, false);
            !SameTexts(Added(ifs, Added(ifs, v, "a ", false), ":b", false), Added(ifs, v, "a " + ":b", false))
  {
    hide Added, Run;
    var ifs, v := " :", View([], None, false);
    SplitTwice(ifs, v, "a ", ":b");
    assert "a "[1..] == " ";
    NonWsLast("", ' ');
    NonWsLast("", ':');
    assert "" + " " == " " && "" + ":" == ":";
    RunStartIs(ifs, "a ", 1);
    assert ":b"[..1] == ":" && ":b"[1] !in ifs;
    assert LeadingRun(ifs, ":b"[1..]) == 0;
  }

  /** A word and a space end softly. */
  lemma WordThenSpace()
    ensures Run(" ", View([], None, false), "a ") == View(["a"], None, true)
  {
    var v := View([], None, false);
    var u := View([], Some("a"), false);
    assert "" + ['a'] == "a" && " "[0] == ' ' && [] + ["a"] == ["a"];
    assert Step(" ", v, 'a') == u && Step(" ", u, ' ') == View(["a"], None, true);
    RunOne(" ", v, 'a');
    RunOne(" ", u, ' ');
    assert ['a'] == "a" && [' '] == " ";
    RunAppend(" ", v, "a", " ");
    assert "a" + " " == "a ";
  }

  // ---------- By the characters themselves ----------

  /** Nothing but spaces, tabs and newlines. */
  predicate Blank(s: string) { forall k :: 0 <= k < |s| ==> s[k] in " \t\n" }

  lemma {:induction false} BlankDelimitsNothing(s: string)
    ensures NonWs(s) == 0 <==> Blank(s)
  {
    if s != "" {
      var init := s[..|s| - 1];
      assert s == init + [s[|s| - 1]];
      BlankDelimitsNothing(init);
      assert forall k :: 0 <= k < |init| ==> init[k] == s[k];
    }
  }

  /** A run of separators closes no field but the open one, and that one so that a delimiter may still join in,
      exactly if it is made of spaces, tabs and newlines. */
  lemma BlankRunClosesNothing(ifs: string, v: View, w: string)
    requires AllIfs(ifs, w) && w != "" && !v.soft
    ensures Blank(w) <==>
            Run(ifs, v, w) == if v.cur.Some? then View(v.fields + [v.cur.value], None, true) else v
    ensures v.cur.None? && Blank(w) ==> Run(ifs, v, w).fields == v.fields
  {
    hide Run, NonWs, AllIfs;
    RunSeparators(ifs, v, w);
    BlankDelimitsNothing(w);
    assert v.fields + [] == v.fields;
    if v.cur.Some? { assert v.fields + [v.cur.value] + [] == v.fields + [v.cur.value]; }
  }
}
