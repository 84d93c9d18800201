/**
  The legacy WAB export: a text file of `CHAVE: valor` lines, one block per
  record, blocks separated by blank lines. The same line algorithm appears
  in the reader and in the TXT-to-JSON converter of both loaders.
 */
module WabText {
  import opened Base
  import opened Text

  /** One record: its keys in first-insertion order, each with its value (a Python `dict[str, str]`). */
  type Record = seq<(string, string)>

  function Keys(rec: Record): (ks: seq<string>)
    ensures |ks| == |rec|
    ensures forall j :: 0 <= j < |rec| ==> ks[j] == rec[j].0
  {
    seq(|rec|, j requires 0 <= j < |rec| => rec[j].0)
  }

  /** A record never holds a key twice. */
  predicate WfRecord(rec: Record) {
    Distinct(Keys(rec))
  }

  /** `bloco.get(k)`. */
  function Lookup(rec: Record, k: string): (r: Option<string>)
    ensures r.None? <==> k !in Keys(rec)
    decreases |rec|
  {
    if |rec| == 0 then None
    else if rec[0].0 == k then Some(rec[0].1)
    else Lookup(rec[1..], k)
  }

  /** `bloco[k] = v`: an existing key keeps its place and takes the new value; a new key goes last. */
  function Put(rec: Record, k: string, v: string): (r: Record)
    requires WfRecord(rec)
    ensures WfRecord(r)
    ensures Lookup(r, k) == Some(v)
    ensures forall k2 :: k2 != k ==> Lookup(r, k2) == Lookup(rec, k2)
    ensures k in Keys(rec) ==> Keys(r) == Keys(rec)
    ensures k !in Keys(rec) ==> Keys(r) == Keys(rec) + [k]
    decreases |rec|
  {
    if |rec| == 0 then [(k, v)]
    else if rec[0].0 == k then
      PutHead(rec, k, v);
      [(k, v)] + rec[1..]
    else
      Uncons(rec);
      var tail := Put(rec[1..], k, v);
      PutBehind(rec, k, v, tail);
      [rec[0]] + tail
  }

  /** Writing the head key replaces the head value. */
  lemma PutHead(rec: Record, k: string, v: string)
    requires |rec| > 0 && rec[0].0 == k && WfRecord(rec)
    ensures var r := [(k, v)] + rec[1..];
      && WfRecord(r) && Lookup(r, k) == Some(v)
      && (forall k2 :: k2 != k ==> Lookup(r, k2) == Lookup(rec, k2))
      && k in Keys(rec) && Keys(r) == Keys(rec)
  {
    Uncons(rec);
    Cons((k, v), rec[1..]);
  }

  /** Writing a key behind the head keeps the head in front of what the tail becomes. */
  lemma PutBehind(rec: Record, k: string, v: string, tail: Record)
    requires |rec| > 0 && rec[0].0 != k && WfRecord(rec)
    requires WfRecord(tail) && Lookup(tail, k) == Some(v)
    requires forall k2 :: k2 != k ==> Lookup(tail, k2) == Lookup(rec[1..], k2)
    requires k in Keys(rec[1..]) ==> Keys(tail) == Keys(rec[1..])
    requires k !in Keys(rec[1..]) ==> Keys(tail) == Keys(rec[1..]) + [k]
    ensures var r := [rec[0]] + tail;
      && WfRecord(r) && Lookup(r, k) == Some(v)
      && (forall k2 :: k2 != k ==> Lookup(r, k2) == Lookup(rec, k2))
      && (k in Keys(rec) ==> Keys(r) == Keys(rec))
      && (k !in Keys(rec) ==> Keys(r) == Keys(rec) + [k])
  {
    Uncons(rec);
    assert rec[0].0 !in Keys(tail);
    Cons(rec[0], tail);
    assert k in Keys(rec) <==> k in Keys(rec[1..]);
    assert k !in Keys(rec[1..]) ==> [rec[0].0] + (Keys(rec[1..]) + [k]) == Keys(rec) + [k];
  }

  /** A record is its head entry before a record without that entry's key. */
  lemma Uncons(rec: Record)
    requires |rec| > 0 && WfRecord(rec)
    ensures WfRecord(rec[1..]) && rec[0].0 !in Keys(rec[1..])
    ensures Keys(rec) == [rec[0].0] + Keys(rec[1..])
  {
    KeysCons(rec[0], rec[1..]);
    assert [rec[0]] + rec[1..] == rec;
    DistinctParts(rec[0].0, Keys(rec[1..]));
  }

  /** Putting an entry with a new key in front of a record. */
  lemma Cons(e: (string, string), t: Record)
    requires WfRecord(t) && e.0 !in Keys(t)
    ensures WfRecord([e] + t)
    ensures Keys([e] + t) == [e.0] + Keys(t)
    ensures forall k2 :: Lookup([e] + t, k2) == if e.0 == k2 then Some(e.1) else Lookup(t, k2)
  {
    KeysCons(e, t);
    DistinctParts(e.0, Keys(t));
    assert ([e] + t)[1..] == t;
  }

  lemma KeysCons(e: (string, string), t: Record)
    ensures Keys([e] + t) == [e.0] + Keys(t)
  {
  }

  /** A sequence with a head is duplicate-free exactly when its tail is and lacks the head. */
  lemma DistinctParts<T>(x: T, s: seq<T>)
    ensures Distinct([x] + s) <==> Distinct(s) && x !in s
  {
    var ys := [x] + s;
    assert forall i :: 0 <= i < |s| ==> ys[i + 1] == s[i];
    if Distinct(ys) {
      forall i, j | 0 <= i < j < |s|
        ensures s[i] != s[j]
      {
        assert ys[i + 1] != ys[j + 1];
      }
      forall i | 0 <= i < |s|
        ensures s[i] != x
      {
        assert ys[0] != ys[i + 1];
      }
    }
    if Distinct(s) && x !in s {
      forall i, j | 0 <= i < j < |ys|
        ensures ys[i] != ys[j]
      {
        if i == 0 {
          assert ys[j] == s[j - 1];
        }
      }
    }
  }

  /** `linha.split(':', 1)` with both parts stripped, for a line holding a colon. */
  function SplitField(line: string): (kv: (string, string))
    requires ':' in line
  {
    var i := IndexOf(line, ':');
    (Strip(line[..i]), Strip(line[i + 1..]))
  }

  /** A key without a colon, a colon, then any value (colons included): the split is at that colon. */
  lemma SplitFieldAt(k: string, v: string)
    requires ':' !in k
    ensures ':' in k + ":" + v
    ensures SplitField(k + ":" + v) == (Strip(k), Strip(v))
  {
    var s := k + ":" + v;
    IndexOfSeparator(k, ':', v);
    assert s[..|k|] == k;
    assert s[|k| + 1..] == v;
  }

  /** The loop state: the records closed so far and the block being filled. */
  datatype ParseState = ParseState(done: seq<Record>, block: Record)

  /** Every record in the state is well formed. */
  predicate WfState(st: ParseState) {
    WfRecord(st.block) && forall j :: 0 <= j < |st.done| ==> WfRecord(st.done[j])
  }

  /** The states the loop passes through: their records never repeat a key. */
  type State = st: ParseState | WfState(st) witness ParseState([], [])

  const Start: State := ParseState([], [])

  /** A line that is blank once stripped. */
  predicate Blank(line: string) {
    Strip(line) == []
  }

  /** One turn of the loop over the file's lines. */
  function Step(st: State, line: string): State {
    var l := Strip(line);
    if l == [] then
      if |st.block| > 0 then ParseState(st.done + [st.block], []) else st
    else if ':' in l then
      var kv := SplitField(l);
      ParseState(st.done, Put(st.block, kv.0, kv.1))
    else st
  }

  /** Feeding lines one at a time to a step function. */
  function Fold<S>(f: (S, string) -> S, st: S, lines: seq<string>): S
    decreases |lines|
  {
    if |lines| == 0 then st
    else f(Fold(f, st, lines[..|lines| - 1]), lines[|lines| - 1])
  }

  /** The state after the loop has read `lines`, starting from `st`. */
  function Run(st: State, lines: seq<string>): State {
    Fold(Step, st, lines)
  }

  /** Feeding `a` then `b` is feeding `a + b`. */
  lemma {:induction false} FoldConcat<S>(f: (S, string) -> S, st: S, a: seq<string>, b: seq<string>)
    ensures Fold(f, st, a + b) == Fold(f, Fold(f, st, a), b)
    decreases |b|
  {
    if |b| == 0 {
      assert a + b == a;
    } else {
      var ab := a + b;
      assert ab[..|ab| - 1] == a + b[..|b| - 1];
      assert ab[|ab| - 1] == b[|b| - 1];
      FoldConcat(f, st, a, b[..|b| - 1]);
    }
  }

  /** After the loop: `if bloco: registros.append(bloco)`. */
  function Finish(st: ParseState): seq<Record> {
    if |st.block| > 0 then st.done + [st.block] else st.done
  }

  /** The records a WAB TXT file holds. */
  function ParseRecords(lines: seq<string>): seq<Record> {
    Finish(Run(Start, lines))
  }

  /** The reader's loop, line by line as the source writes it; it computes `ParseRecords`. */
  method ReadRecords(lines: seq<string>) returns (registros: seq<Record>)
    ensures registros == ParseRecords(lines)
  {
    registros := [];
    var bloco: Record := [];
    var i := 0;
    while i < |lines|
      invariant 0 <= i <= |lines|
      invariant WfRecord(bloco)
      invariant forall j :: 0 <= j < |registros| ==> WfRecord(registros[j])
      invariant ParseState(registros, bloco) == Run(Start, lines[..i])
    {
      assert lines[..i + 1][..i] == lines[..i];
      var linha := Strip(lines[i]);
      if linha == [] {
        if |bloco| > 0 {
          registros := registros + [bloco];
          bloco := [];
        }
      } else if ':' in linha {
        var kv := SplitField(linha);
        bloco := Put(bloco, kv.0, kv.1);
      }
      i := i + 1;
    }
    assert lines[..i] == lines;
    if |bloco| > 0 {
      registros := registros + [bloco];
    }
  }

  /** Reading some lines is reading all but the last, then taking one more step. */
  lemma RunLast(st: State, lines: seq<string>)
    requires |lines| > 0
    ensures Run(st, lines) == Step(Run(st, lines[..|lines| - 1]), lines[|lines| - 1])
  {
  }

  /** Reading `a` then `b` is reading `a + b`. */
  lemma RunConcat(st: State, a: seq<string>, b: seq<string>)
    ensures Run(st, a + b) == Run(Run(st, a), b)
  {
    FoldConcat(Step, st, a, b);
  }

  /** The loop from a state with an empty block only adds to the closed records it started with. */
  lemma {:induction false} RunShift(d: seq<Record>, lines: seq<string>)
    requires forall j :: 0 <= j < |d| ==> WfRecord(d[j])
    ensures var r := Run(Start, lines);
      Run(ParseState(d, []), lines) == ParseState(d + r.done, r.block)
    decreases |lines|
  {
    assert WfState(ParseState(d, []));
    if |lines| > 0 {
      var init := lines[..|lines| - 1];
      RunShift(d, init);
      var p := Run(Start, init);
      var line := lines[|lines| - 1];
      if Blank(line) && |p.block| > 0 {
        assert (d + p.done) + [p.block] == d + (p.done + [p.block]);
      }
    } else {
      assert d + [] == d;
    }
  }

  /** No record is empty: a blank line closes a block only when it holds a field. */
  lemma {:induction false} RunNoEmpty(st: State, lines: seq<string>)
    requires forall j :: 0 <= j < |st.done| ==> |st.done[j]| > 0
    ensures forall j :: 0 <= j < |Run(st, lines).done| ==> |Run(st, lines).done[j]| > 0
    decreases |lines|
  {
    if |lines| > 0 {
      RunNoEmpty(st, lines[..|lines| - 1]);
      RunLast(st, lines);
    }
  }

  lemma NoEmptyRecords(lines: seq<string>)
    ensures forall j :: 0 <= j < |ParseRecords(lines)| ==> |ParseRecords(lines)[j]| > 0
  {
    RunNoEmpty(Start, lines);
  }

  /** Reading one more line is one more step. */
  lemma RunSnoc(st: State, a: seq<string>, line: string)
    ensures Run(st, a + [line]) == Step(Run(st, a), line)
  {
    assert (a + [line])[..|a|] == a;
  }

  /** A blank line closes the open block, if it holds anything. */
  lemma StepBlank(st: State, line: string)
    requires Blank(line)
    ensures Step(st, line) == ParseState(Finish(st), [])
  {
  }

  /** A non-blank line without a colon changes nothing. */
  lemma StepNoColon(st: State, line: string)
    requires !Blank(line) && ':' !in line
    ensures Step(st, line) == st
  {
    assert ':' !in Strip(line);
  }

  /**
    A blank line separates two files' worth of records: the records before
    it are exactly those of the lines before it, closed even if the block
    was still open, and the records after it those of the lines after it.
   */
  lemma BlankSeparates(a: seq<string>, blank: string, b: seq<string>)
    requires Blank(blank)
    ensures ParseRecords(a + [blank] + b) == ParseRecords(a) + ParseRecords(b)
  {
    var d := ParseRecords(a);
    BlankCloses(a, blank);
    RunConcat(Start, a + [blank], b);
    RunShift(d, b);
    Flushed(d, Run(Start, b));
  }

  /** The lines up to a blank line leave exactly their records closed and nothing open. */
  lemma BlankCloses(a: seq<string>, blank: string)
    requires Blank(blank)
    ensures Run(Start, a + [blank]) == ParseState(ParseRecords(a), [])
    ensures forall j :: 0 <= j < |ParseRecords(a)| ==> WfRecord(ParseRecords(a)[j])
  {
    RunSnoc(Start, a, blank);
    StepBlank(Run(Start, a), blank);
  }

  /** Finishing after some records were already closed keeps them in front. */
  lemma Flushed(d: seq<Record>, p: ParseState)
    ensures Finish(ParseState(d + p.done, p.block)) == d + Finish(p)
  {
    if |p.block| > 0 {
      assert (d + p.done) + [p.block] == d + (p.done + [p.block]);
    }
  }

  /** A non-blank line without a colon is skipped. */
  lemma NoColonIgnored(a: seq<string>, line: string, b: seq<string>)
    requires !Blank(line) && ':' !in line
    ensures ParseRecords(a + [line] + b) == ParseRecords(a + b)
  {
    RunConcat(Start, a + [line], b);
    RunConcat(Start, a, b);
    RunSnoc(Start, a, line);
    StepNoColon(Run(Start, a), line);
  }

  /** A field line writes its stripped key with its stripped value into the open block. */
  lemma FieldLine(st: State, k: string, v: string)
    requires ':' !in k && !Blank(k + ":" + v)
    requires Trimmed(k + ":" + v)
    ensures Step(st, k + ":" + v) == ParseState(st.done, Put(st.block, Strip(k), Strip(v)))
  {
    var line := k + ":" + v;
    assert Strip(line) == line;
    SplitFieldAt(k, v);
  }

  /**
    Field lines with no blank line between them make one record, flushed at
    the end of the input even without a closing blank line.
   */
  lemma {:induction false} OneBlock(lines: seq<string>)
    requires |lines| > 0
    requires forall j :: 0 <= j < |lines| ==> !Blank(lines[j]) && ':' in Strip(lines[j])
    ensures Run(Start, lines).done == []
    ensures |Run(Start, lines).block| > 0
    ensures ParseRecords(lines) == [Run(Start, lines).block]
    decreases |lines|
  {
    var init := lines[..|lines| - 1];
    if |init| > 0 {
      OneBlock(init);
    }
    RunLast(Start, lines);
  }

  /**
    The default output path of the converter, `txt_path.replace('.txt',
    '.json')`: every occurrence of '.txt' becomes '.json', anywhere in the
    path.
   */
  function DefaultJsonPath(txtPath: string): string {
    ReplaceAll(txtPath, ".txt", ".json")
  }

  /** '.txt' cannot overlap the end of a string followed by another '.txt'. */
  lemma {:induction false} ReplaceTxtSuffix(stem: string)
    ensures ReplaceAll(stem + ".txt", ".txt", ".json") == ReplaceAll(stem, ".txt", ".json") + ".json"
    decreases |stem|
  {
    var s := stem + ".txt";
    if |stem| == 0 {
      assert s == ".txt" + [];
      ReplaceAllLeading(".txt", [], ".json");
    } else if StartsWith(s, ".txt") {
      assert |stem| >= 4 by {
        assert s[..4][|stem| % 4] == ".txt"[|stem| % 4];
      }
      assert stem[..4] == s[..4];
      assert s[4..] == stem[4..] + ".txt";
      ReplaceTxtSuffix(stem[4..]);
    } else {
      assert s[1..] == stem[1..] + ".txt";
      ReplaceTxtSuffix(stem[1..]);
    }
  }

  /** A string in which the pattern does not occur is left as it is. */
  lemma {:induction false} ReplaceAllNotContained(s: string, pat: string, rep: string)
    requires |pat| > 0 && !Contains(s, pat)
    ensures ReplaceAll(s, pat, rep) == s
    decreases |s|
  {
    if |s| > 0 {
      ReplaceAllNotContained(s[1..], pat, rep);
    }
  }

  /** A path ending in the only '.txt' it holds gets '.json' in its place; a path without '.txt' is kept. */
  lemma DefaultJsonPathSwapsExtension(stem: string)
    ensures !Contains(stem, ".txt") ==> DefaultJsonPath(stem + ".txt") == stem + ".json"
    ensures !Contains(stem, ".txt") ==> DefaultJsonPath(stem) == stem
  {
    ReplaceTxtSuffix(stem);
    if !Contains(stem, ".txt") {
      ReplaceAllNotContained(stem, ".txt", ".json");
    }
  }
}
