/** format_training_pairs of omniai/memory/learning.py: interaction logs become instruction
    pairs, session by session. */
module TrainingPairs {
  import opened Options
  import opened Protocol

  /** A logged interaction. `feedback` is the explicit feedback found in the row's metadata. */
  datatype Row = Row(id: int, session: string, role: Role, content: string, feedback: Option<string>, created: int)

  datatype Pair = Pair(prompt: string, completion: string, system: Option<string>, feedback: Option<string>)

  /** What the scan of one session remembers: nothing, or the open user turn with the tool
      outputs seen since. */
  datatype Turn = Idle | Asked(prompt: string, context: seq<string>)

  function JoinLines(lines: seq<string>): string {
    if lines == [] then ""
    else if |lines| == 1 then lines[0]
    else lines[0] + "\n" + JoinLines(lines[1..])
  }

  function Instruction(prompt: string, context: seq<string>): string {
    if context == [] then prompt else prompt + "\n" + JoinLines(context)
  }

  /** The lines of a text. */
  function Lines(text: string): (lines: seq<string>)
    ensures lines != []
  {
    if text == "" then [""]
    else
      var rest := Lines(text[1..]);
      if text[0] == '\n' then [""] + rest else [[text[0]] + rest[0]] + rest[1..]
  }

  function AllLines(texts: seq<string>): seq<string> {
    if texts == [] then [] else Lines(texts[0]) + AllLines(texts[1..])
  }

  lemma {:induction false} LinesConcat(a: string, b: string)
    ensures Lines(a + "\n" + b) == Lines(a) + Lines(b)
  {
    var text := a + "\n" + b;
    if a == "" {
      assert text[1..] == b;
    } else {
      assert text[1..] == a[1..] + "\n" + b;
      LinesConcat(a[1..], b);
    }
  }

  lemma {:induction false} JoinLinesKeepsLines(texts: seq<string>)
    requires texts != []
    ensures Lines(JoinLines(texts)) == AllLines(texts)
  {
    if |texts| > 1 {
      JoinLinesKeepsLines(texts[1..]);
      LinesConcat(texts[0], JoinLines(texts[1..]));
    }
  }

  /** Reading a text line by line loses nothing. */
  lemma {:induction false} LinesRoundTrip(text: string)
    ensures JoinLines(Lines(text)) == text
  {
    if text != "" {
      var rest := Lines(text[1..]);
      LinesRoundTrip(text[1..]);
      if text[0] == '\n' {
        assert Lines(text) == [""] + rest && Lines(text)[1..] == rest;
        assert "" + "\n" + text[1..] == text;
      } else {
        FirstLineGrows(text[0], rest);
        assert [text[0]] + text[1..] == text;
      }
    }
  }

  lemma FirstLineGrows(c: char, lines: seq<string>)
    requires lines != []
    ensures JoinLines([[c] + lines[0]] + lines[1..]) == [c] + JoinLines(lines)
  {
    var all := [[c] + lines[0]] + lines[1..];
    assert all[1..] == lines[1..];
    if |lines| > 1 {
      assert ([c] + lines[0]) + "\n" + JoinLines(lines[1..]) == [c] + (lines[0] + "\n" + JoinLines(lines[1..]));
    }
  }

  /** An instruction reads as the lines of the question followed by those of each tool output in
      order, nothing lost or added. */
  lemma InstructionKeepsLines(prompt: string, context: seq<string>)
    ensures Lines(Instruction(prompt, context)) == Lines(prompt) + AllLines(context)
  {
    if context != [] {
      JoinLinesKeepsLines(context);
      LinesConcat(prompt, JoinLines(context));
    }
  }

  function MakePair(turn: Turn, row: Row, system: string): Pair
    requires turn.Asked?
  {
    Pair(Instruction(turn.prompt, turn.context), row.content, if system != "" then Some(system) else None, row.feedback)
  }

  function Advance(turn: Turn, row: Row): Turn {
    match row.role
    case User => Asked(row.content, [])
    case Tool => if turn.Asked? then turn.(context := turn.context + ["[tool output] " + row.content]) else turn
    case Assistant => Idle
    case System => turn
  }

  function Emitted(turn: Turn, row: Row, system: string): seq<Pair> {
    if row.role == Assistant && turn.Asked? then [MakePair(turn, row, system)] else []
  }

  /** Pairs of one session's rows, scanned from `turn` on. */
  function Scan(turn: Turn, rows: seq<Row>, system: string): seq<Pair>
    decreases |rows|
  {
    if rows == [] then []
    else Emitted(turn, rows[0], system) + Scan(Advance(turn, rows[0]), rows[1..], system)
  }

  function TurnAfter(turn: Turn, rows: seq<Row>): Turn
    decreases |rows|
  {
    if rows == [] then turn else TurnAfter(Advance(turn, rows[0]), rows[1..])
  }

  function OfSession(logs: seq<Row>, session: string): seq<Row> {
    if logs == [] then []
    else
      var k := |logs| - 1;
      if logs[k].session == session then OfSession(logs[..k], session) + [logs[k]] else OfSession(logs[..k], session)
  }

  function PairsOf(logs: seq<Row>, session: string, system: string): seq<Pair> {
    Scan(Idle, OfSession(logs, session), system)
  }

  /** Sessions in the order of their first row. */
  function Sessions(logs: seq<Row>): seq<string> {
    if logs == [] then []
    else
      var k := |logs| - 1;
      var before := Sessions(logs[..k]);
      if logs[k].session in before then before else before + [logs[k].session]
  }

  function Collect(sessions: seq<string>, logs: seq<Row>, system: string): seq<Pair> {
    if sessions == [] then []
    else Collect(sessions[..|sessions| - 1], logs, system) + PairsOf(logs, sessions[|sessions| - 1], system)
  }

  function AllPairs(logs: seq<Row>, system: string): seq<Pair> {
    Collect(Sessions(logs), logs, system)
  }

  method FormatTrainingPairs(logs: seq<Row>, system: string) returns (pairs: seq<Pair>)
    ensures pairs == AllPairs(logs, system)
  {
    var order, bySession := GroupBySession(logs);
    pairs := [];
    var n := 0;
    while n < |order|
      invariant 0 <= n <= |order|
      invariant pairs == Collect(order[..n], logs, system)
    {
      assert order[..n + 1][..n] == order[..n];
      assert order[n] in bySession;
      var found := ScanSession(bySession[order[n]], system);
      pairs := pairs + found;
      n := n + 1;
    }
    assert order[..n] == order;
  }

  /** The loop that fills `by_session`, a dict that remembers the order of its keys. */
  method GroupBySession(logs: seq<Row>) returns (order: seq<string>, bySession: map<string, seq<Row>>)
    ensures order == Sessions(logs)
    ensures forall s :: s in bySession <==> s in order
    ensures forall s :: s in bySession ==> bySession[s] == OfSession(logs, s)
  {
    order, bySession := [], map[];
    var i := 0;
    while i < |logs|
      invariant 0 <= i <= |logs|
      invariant order == Sessions(logs[..i])
      invariant forall s :: s in bySession <==> s in order
      invariant forall s :: s in bySession ==> bySession[s] == OfSession(logs[..i], s)
      invariant forall s :: s !in bySession ==> OfSession(logs[..i], s) == []
    {
      var row := logs[i];
      assert logs[..i + 1][..i] == logs[..i];
      if row.session !in bySession {
        order := order + [row.session];
        bySession := bySession[row.session := []];
      }
      bySession := bySession[row.session := bySession[row.session] + [row]];
      i := i + 1;
    }
    assert logs[..i] == logs;
  }

  /** The inner loop over the rows of one session. */
  method ScanSession(rows: seq<Row>, system: string) returns (pairs: seq<Pair>)
    ensures pairs == Scan(Idle, rows, system)
  {
    pairs := [];
    var prompt: Option<string> := None;
    var context: seq<string> := [];
    var i := 0;
    while i < |rows|
      invariant 0 <= i <= |rows|
      invariant pairs + Scan(TurnOf(prompt, context), rows[i..], system) == Scan(Idle, rows, system)
    {
      var row := rows[i];
      ScanStep(pairs, TurnOf(prompt, context), rows, i, system);
      assert pairs + [] == pairs;
      if row.role == User {
        prompt := Some(row.content);
        context := [];
      } else if row.role == Tool && prompt.Some? {
        context := context + ["[tool output] " + row.content];
      } else if row.role == Assistant && prompt.Some? {
        pairs := pairs + [Pair(Instruction(prompt.value, context), row.content,
                               if system != "" then Some(system) else None, row.feedback)];
        prompt, context := None, [];
      }
      i := i + 1;
    }
  }

  function TurnOf(prompt: Option<string>, context: seq<string>): Turn {
    if prompt.Some? then Asked(prompt.value, context) else Idle
  }

  lemma ScanStep(pairs: seq<Pair>, turn: Turn, rows: seq<Row>, i: nat, system: string)
    requires i < |rows|
    ensures pairs + Scan(turn, rows[i..], system)
         == (pairs + Emitted(turn, rows[i], system)) + Scan(Advance(turn, rows[i]), rows[i + 1..], system)
  {
    assert rows[i..][1..] == rows[i + 1..];
  }

  // ---- cutting a session's log in two ----

  lemma {:induction false} ScanConcat(turn: Turn, a: seq<Row>, b: seq<Row>, system: string)
    ensures Scan(turn, a + b, system) == Scan(turn, a, system) + Scan(TurnAfter(turn, a), b, system)
    decreases |a|
  {
    if a == [] {
      assert a + b == b;
    } else {
      assert (a + b)[1..] == a[1..] + b;
      ScanConcat(Advance(turn, a[0]), a[1..], b, system);
    }
  }

  /** Index of the first row that a user or an assistant wrote, or the length. */
  function FirstTurn(rows: seq<Row>): (k: nat)
    ensures k <= |rows|
    ensures k < |rows| ==> rows[k].role == User || rows[k].role == Assistant
    ensures forall i :: 0 <= i < k ==> rows[i].role == Tool || rows[i].role == System
  {
    if rows == [] || rows[0].role == User || rows[0].role == Assistant then 0
    else
      var k := FirstTurn(rows[1..]);
      assert forall i :: 0 < i < |rows| ==> rows[i] == rows[1..][i - 1];
      1 + k
  }

  /** The open turn is answered by the rows that follow. */
  predicate Answered(turn: Turn, rows: seq<Row>) {
    turn.Asked? && FirstTurn(rows) < |rows| && rows[FirstTurn(rows)].role == Assistant
  }

  function ToolOutputs(rows: seq<Row>): seq<string> {
    if rows == [] then []
    else (if rows[0].role == Tool then ["[tool output] " + rows[0].content] else []) + ToolOutputs(rows[1..])
  }

  /** The pair of an open turn and the rows that answer it: the open prompt, all tool outputs up
      to the answer, and the answer. */
  function Straddling(turn: Turn, rows: seq<Row>, system: string): seq<Pair> {
    if !Answered(turn, rows) then []
    else
      var k := FirstTurn(rows);
      [MakePair(turn.(context := turn.context + ToolOutputs(rows[..k])), rows[k], system)]
  }

  lemma {:induction false} OpenTurnAddsStraddling(turn: Turn, rows: seq<Row>, system: string)
    ensures Scan(turn, rows, system) == Straddling(turn, rows, system) + Scan(Idle, rows, system)
    decreases |rows|
  {
    if rows == [] || turn.Idle? {
      assert Straddling(turn, rows, system) == [];
    } else if rows[0].role == User {
      assert FirstTurn(rows) == 0;
    } else if rows[0].role == Assistant {
      assert turn.context + ToolOutputs(rows[..0]) == turn.context;
    } else {
      OpenTurnAddsStraddling(Advance(turn, rows[0]), rows[1..], system);
      StraddlingSkips(turn, rows, system);
    }
  }

  lemma StraddlingSkips(turn: Turn, rows: seq<Row>, system: string)
    requires turn.Asked? && rows != [] && (rows[0].role == Tool || rows[0].role == System)
    ensures Straddling(turn, rows, system) == Straddling(Advance(turn, rows[0]), rows[1..], system)
  {
    var rest, k := rows[1..], FirstTurn(rows[1..]);
    assert FirstTurn(rows) == k + 1;
    if k < |rest| {
      assert rows[..k + 1][1..] == rest[..k];
      assert turn.context + ToolOutputs(rows[..k + 1]) == Advance(turn, rows[0]).context + ToolOutputs(rest[..k]);
    }
  }

  /** Cutting a session's log anywhere: the pairs of the whole are those of the first part, at
      most one pair that straddles the cut, and those of the second part. The straddling pair is
      lost to batches that are trained separately; it exists if and only if the first part ends
      in an open user turn that the second part answers. */
  lemma CutLosesAtMostOne(a: seq<Row>, b: seq<Row>, system: string)
    ensures Scan(Idle, a + b, system)
         == Scan(Idle, a, system) + Straddling(TurnAfter(Idle, a), b, system) + Scan(Idle, b, system)
    ensures |Straddling(TurnAfter(Idle, a), b, system)| == if Answered(TurnAfter(Idle, a), b) then 1 else 0
  {
    ScanConcat(Idle, a, b, system);
    OpenTurnAddsStraddling(TurnAfter(Idle, a), b, system);
  }

  // ---- a declarative reading ----

  /** Index of the last row that a user or an assistant wrote, or -1. */
  function LastTurn(rows: seq<Row>): (j: int)
    ensures -1 <= j < |rows|
    ensures j >= 0 ==> rows[j].role == User || rows[j].role == Assistant
    ensures forall i :: j < i < |rows| ==> rows[i].role == Tool || rows[i].role == System
  {
    if rows == [] then -1
    else
      var k := |rows| - 1;
      if rows[k].role == User || rows[k].role == Assistant then k else LastTurn(rows[..k])
  }

  /** The question the rows leave open: the last turn, when it is a user's, and the tool outputs
      since. */
  function OpenQuestion(rows: seq<Row>): Turn {
    var j := LastTurn(rows);
    if j >= 0 && rows[j].role == User then Asked(rows[j].content, ToolOutputs(rows[j + 1..])) else Idle
  }

  /** The pair, if any, that `row` completes: the open question with its tool outputs, and the
      answer. */
  function Completed(open: Turn, row: Row, system: string): seq<Pair> {
    match open
    case Idle => []
    case Asked(question, outputs) =>
      if row.role != Assistant then []
      else
        [Pair(if outputs == [] then question else question + "\n" + JoinLines(outputs),
              row.content,
              if system == "" then None else Some(system),
              row.feedback)]
  }

  function CompletedPair(before: seq<Row>, row: Row, system: string): seq<Pair> {
    Completed(OpenQuestion(before), row, system)
  }

  function CompletedPairs(rows: seq<Row>, system: string): seq<Pair> {
    if rows == [] then []
    else
      var k := |rows| - 1;
      CompletedPairs(rows[..k], system) + CompletedPair(rows[..k], rows[k], system)
  }

  lemma {:induction false} ToolOutputsConcat(a: seq<Row>, b: seq<Row>)
    ensures ToolOutputs(a + b) == ToolOutputs(a) + ToolOutputs(b)
  {
    if a == [] {
      assert a + b == b;
    } else {
      assert (a + b)[1..] == a[1..] + b;
      ToolOutputsConcat(a[1..], b);
    }
  }

  lemma {:induction false} TurnAfterConcat(turn: Turn, a: seq<Row>, b: seq<Row>)
    ensures TurnAfter(turn, a + b) == TurnAfter(TurnAfter(turn, a), b)
    decreases |a|
  {
    if a == [] {
      assert a + b == b;
    } else {
      assert (a + b)[1..] == a[1..] + b;
      TurnAfterConcat(Advance(turn, a[0]), a[1..], b);
    }
  }

  /** The scan's memory is the open question. */
  lemma {:induction false} MemoryIsOpenQuestion(rows: seq<Row>)
    ensures TurnAfter(Idle, rows) == OpenQuestion(rows)
    decreases |rows|
  {
    if rows != [] {
      var k := |rows| - 1;
      var before, row := rows[..k], rows[k];
      MemoryIsOpenQuestion(before);
      assert before + [row] == rows;
      TurnAfterSnoc(before, row);
      QuestionAdvances(before, row);
    }
  }

  lemma TurnAfterSnoc(before: seq<Row>, row: Row)
    ensures TurnAfter(Idle, before + [row]) == Advance(TurnAfter(Idle, before), row)
  {
    TurnAfterConcat(Idle, before, [row]);
    assert [row][1..] == [];
  }

  lemma QuestionAdvances(before: seq<Row>, row: Row)
    ensures OpenQuestion(before + [row]) == Advance(OpenQuestion(before), row)
  {
    var rows := before + [row];
    assert rows[..|before|] == before;
    if row.role == User {
      assert rows[|before| + 1..] == [];
    } else if LastTurn(before) >= 0 {
      OutputsSnoc(before, LastTurn(before) + 1, row);
    }
  }

  lemma OutputsSnoc(before: seq<Row>, from: nat, row: Row)
    requires from <= |before|
    ensures ToolOutputs((before + [row])[from..])
         == ToolOutputs(before[from..]) + (if row.role == Tool then ["[tool output] " + row.content] else [])
  {
    assert (before + [row])[from..] == before[from..] + [row];
    ToolOutputsConcat(before[from..], [row]);
    assert [row][1..] == [];
  }

  /** The scan yields, in order, one pair for every assistant row whose last preceding turn is a
      user's. */
  lemma {:induction false} ScanIsCompletedPairs(rows: seq<Row>, system: string)
    ensures Scan(Idle, rows, system) == CompletedPairs(rows, system)
    decreases |rows|
  {
    if rows != [] {
      var before, row := rows[..|rows| - 1], rows[|rows| - 1];
      ScanIsCompletedPairs(before, system);
      ScanSnoc(before, row, system);
      assert before + [row] == rows;
    }
  }

  lemma ScanSnoc(before: seq<Row>, row: Row, system: string)
    ensures Scan(Idle, before + [row], system) == Scan(Idle, before, system) + CompletedPair(before, row, system)
  {
    ScanConcat(Idle, before, [row], system);
    ScanOfOne(TurnAfter(Idle, before), row, system);
    MemoryIsOpenQuestion(before);
    EmittedIsCompleted(OpenQuestion(before), row, system);
  }

  lemma EmittedIsCompleted(turn: Turn, row: Row, system: string)
    ensures Emitted(turn, row, system) == Completed(turn, row, system)
  {
  }

  lemma ScanOfOne(turn: Turn, row: Row, system: string)
    ensures Scan(turn, [row], system) == Emitted(turn, row, system)
  {
    assert [row][1..] == [];
    assert Emitted(turn, row, system) + [] == Emitted(turn, row, system);
  }

  // ---- interleaved sessions ----

  ghost predicate Distinct(s: seq<string>) {
    forall i, j :: 0 <= i < j < |s| ==> s[i] != s[j]
  }

  lemma {:induction false} SessionsFacts(logs: seq<Row>)
    ensures Distinct(Sessions(logs))
    ensures forall s :: s in Sessions(logs) <==> OfSession(logs, s) != []
  {
    if logs != [] {
      SessionsFacts(logs[..|logs| - 1]);
    }
  }

  /** A sum of multisets over a list of sessions. */
  function Tally(sessions: seq<string>, f: string -> multiset<Pair>): multiset<Pair> {
    if sessions == [] then multiset{}
    else Tally(sessions[..|sessions| - 1], f) + f(sessions[|sessions| - 1])
  }

  function PairBag(logs: seq<Row>, system: string): string -> multiset<Pair> {
    s => multiset(PairsOf(logs, s, system))
  }

  lemma {:induction false} CollectIsTally(sessions: seq<string>, logs: seq<Row>, system: string)
    ensures multiset(Collect(sessions, logs, system)) == Tally(sessions, PairBag(logs, system))
  {
    if sessions != [] {
      CollectIsTally(sessions[..|sessions| - 1], logs, system);
    }
  }

  function Dropped(s: seq<string>, k: nat): seq<string>
    requires k < |s|
  {
    s[..k] + s[k + 1..]
  }

  lemma {:induction false} TallyDrop(sessions: seq<string>, k: nat, f: string -> multiset<Pair>)
    requires k < |sessions|
    ensures Tally(sessions, f) == Tally(Dropped(sessions, k), f) + f(sessions[k])
    decreases |sessions|
  {
    var n := |sessions| - 1;
    if k == n {
      assert Dropped(sessions, k) == sessions[..n];
    } else {
      TallyDrop(sessions[..n], k, f);
      var rest := Dropped(sessions[..n], k);
      assert Dropped(sessions, k) == rest + [sessions[n]];
      assert (rest + [sessions[n]])[..|rest|] == rest;
    }
  }

  lemma DroppedFacts(s: seq<string>, k: nat)
    requires Distinct(s) && k < |s|
    ensures Distinct(Dropped(s, k))
    ensures forall x :: x in Dropped(s, k) <==> x in s && x != s[k]
  {
    forall x | x in s && x != s[k] ensures x in Dropped(s, k) {
      var i :| 0 <= i < |s| && s[i] == x;
      assert x == Dropped(s, k)[if i < k then i else i - 1];
    }
  }

  lemma {:induction false} TallyOfNone(s: seq<string>, f: string -> multiset<Pair>)
    requires forall x :: x in s ==> f(x) == multiset{}
    ensures Tally(s, f) == multiset{}
  {
    if s != [] {
      TallyOfNone(s[..|s| - 1], f);
      assert s[|s| - 1] in s;
    }
  }

  /** The tally over a list of distinct sessions only depends on which sessions that count are in
      the list. */
  lemma {:induction false} TallyIgnoresOrder(s: seq<string>, t: seq<string>, f: string -> multiset<Pair>)
    requires Distinct(s) && Distinct(t)
    requires forall x :: x in s && x !in t ==> f(x) == multiset{}
    requires forall x :: x in t && x !in s ==> f(x) == multiset{}
    ensures Tally(s, f) == Tally(t, f)
    decreases |s|
  {
    if s == [] {
      TallyOfNone(t, f);
    } else {
      var n := |s| - 1;
      assert s == s[..n] + [s[n]];
      if s[n] in t {
        var k :| 0 <= k < |t| && t[k] == s[n];
        TallyDrop(t, k, f);
        DroppedFacts(t, k);
        TallyIgnoresOrder(s[..n], Dropped(t, k), f);
      } else {
        assert f(s[n]) == multiset{};
        TallyIgnoresOrder(s[..n], t, f);
      }
    }
  }

  lemma {:induction false} TallySame(s: seq<string>, f: string -> multiset<Pair>, g: string -> multiset<Pair>)
    requires forall x :: f(x) == g(x)
    ensures Tally(s, f) == Tally(s, g)
  {
    if s != [] {
      TallySame(s[..|s| - 1], f, g);
    }
  }

  /** However sessions interleave, the pairs depend only on each session's own rows: two logs
      with the same rows per session yield the same pairs, up to the order of sessions. */
  lemma InterleavingIsIrrelevant(a: seq<Row>, b: seq<Row>, system: string)
    requires forall s :: OfSession(a, s) == OfSession(b, s)
    ensures multiset(AllPairs(a, system)) == multiset(AllPairs(b, system))
  {
    var f, g := PairBag(a, system), PairBag(b, system);
    SessionsFacts(a);
    SessionsFacts(b);
    CollectIsTally(Sessions(a), a, system);
    CollectIsTally(Sessions(b), b, system);
    forall s ensures f(s) == g(s) {
      assert OfSession(a, s) == OfSession(b, s);
    }
    TallySame(Sessions(a), f, g);
    forall s ensures s in Sessions(a) <==> s in Sessions(b) {
      assert OfSession(a, s) == OfSession(b, s);
    }
    TallyIgnoresOrder(Sessions(a), Sessions(b), g);
  }

  lemma {:induction false} OfSessionConcat(a: seq<Row>, b: seq<Row>, s: string)
    ensures OfSession(a + b, s) == OfSession(a, s) + OfSession(b, s)
    decreases |b|
  {
    if b == [] {
      assert a + b == a;
    } else {
      assert (a + b)[..|a + b| - 1] == a + b[..|b| - 1];
      OfSessionConcat(a, b[..|b| - 1], s);
    }
  }

  /** Training two batches separately instead of together loses, in each session, exactly the
      pair of a turn left open by the first batch and answered in the second. */
  lemma BatchBoundary(a: seq<Row>, b: seq<Row>, s: string, system: string)
    ensures var turn := TurnAfter(Idle, OfSession(a, s));
            && PairsOf(a + b, s, system)
               == PairsOf(a, s, system) + Straddling(turn, OfSession(b, s), system) + PairsOf(b, s, system)
            && (Straddling(turn, OfSession(b, s), system) != [] <==> Answered(turn, OfSession(b, s)))
  {
    OfSessionConcat(a, b, s);
    CutLosesAtMostOne(OfSession(a, s), OfSession(b, s), system);
  }

  // ---- many batches ----

  /** The rows of all batches, one batch after the other. */
  function Joined(batches: seq<seq<Row>>): seq<Row> {
    if batches == [] then [] else Joined(batches[..|batches| - 1]) + batches[|batches| - 1]
  }

  /** The pairs of a session batch by batch and, before each batch, the pair of the turn that the
      earlier ones left open, if this batch answers it. */
  function PairsAcross(batches: seq<seq<Row>>, session: string, system: string): seq<Pair> {
    if batches == [] then []
    else
      var k := |batches| - 1;
      var turn := TurnAfter(Idle, OfSession(Joined(batches[..k]), session));
      PairsAcross(batches[..k], session, system)
      + Straddling(turn, OfSession(batches[k], session), system)
      + PairsOf(batches[k], session, system)
  }

  /** Training batch by batch misses only the pairs that straddle a boundary. */
  lemma {:induction false} PairsOfJoined(batches: seq<seq<Row>>, session: string, system: string)
    ensures PairsOf(Joined(batches), session, system) == PairsAcross(batches, session, system)
    decreases |batches|
  {
    if batches != [] {
      var k := |batches| - 1;
      PairsOfJoined(batches[..k], session, system);
      BatchBoundary(Joined(batches[..k]), batches[k], session, system);
    }
  }
}
