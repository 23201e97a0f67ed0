/**
 * The CI regression gate: reduce the rows of a results table to the best
 * Sharpe ratio and the worst drawdown, skipping rows whose numbers do not
 * parse, and report a regression when either misses its threshold.
 * Reading the file, the environment and writing the summary are left out;
 * the string-to-float conversion is a parameter.
 */
module CiRegression {
  import opened Wrappers
  import opened Seqs

  /** One item of a row dictionary; the value is absent where the line is shorter than the header. */
  datatype Field = Field(key: string, value: Option<string>)

  /** The dictionary `csv.DictReader` yields for one line, as its items in insertion order. */
  type Row = seq<Field>

  /** One line of the table, as its cells. */
  type Record = seq<string>

  /** A conversion of a cell to a number, failing on text that is not one. */
  type Parser = string -> Option<real>

  datatype EvalError = EmptyHeader | MissingColumns | NoMetrics

  /** The two numbers a row contributes once both parse. */
  datatype Metrics = Metrics(sharpe: real, drawdown: real)

  /** The running best Sharpe ratio and worst drawdown. */
  datatype Extremes = Extremes(bestSharpe: real, worstDd: real)

  /** What the gate reports: the two aggregates, the thresholds they were held to, and the verdict. */
  datatype Summary = Summary(bestSharpe: real, worstDd: real, sharpeThreshold: real, maxDdThreshold: real, regression: bool)

  const SharpeColumns: seq<string> := ["sharpe"]
  const DrawdownColumns: seq<string> := ["max_dd", "maxdd", "max_drawdown"]
  const DefaultSharpeThreshold: real := 1.0
  const DefaultMaxDdThreshold: real := -0.20

  // ---------------------------------------------------------------------
  // Column lookup
  // ---------------------------------------------------------------------

  function LowerChar(c: char): char
  {
    if 'A' <= c <= 'Z' then (c as int + 32) as char else c
  }

  function Lower(s: string): (r: string)
    ensures |r| == |s|
  {
    seq(|s|, i requires 0 <= i < |s| => LowerChar(s[i]))
  }

  /** Two keys that are equal once lower-cased. */
  predicate SameFolded(a: string, b: string)
  {
    Lower(a) == Lower(b)
  }

  /** The first position whose key is `n`, or `|row|` when there is none. */
  function FindExact(row: Row, n: string): (i: nat)
    ensures i <= |row|
    ensures i < |row| ==> row[i].key == n
    ensures forall j :: 0 <= j < i ==> row[j].key != n
  {
    if |row| == 0 then 0
    else if row[0].key == n then 0
    else 1 + FindExact(row[1..], n)
  }

  /** The first position whose key equals `n` ignoring case, or `|row|` when there is none. */
  function FindFolded(row: Row, n: string): (i: nat)
    ensures i <= |row|
    ensures i < |row| ==> SameFolded(row[i].key, n)
    ensures forall j :: 0 <= j < i ==> !SameFolded(row[j].key, n)
  {
    if |row| == 0 then 0
    else if SameFolded(row[0].key, n) then 0
    else 1 + FindFolded(row[1..], n)
  }

  /**
   * One candidate name: the value under exactly that key if there is one,
   * else the value of the first key equal to it ignoring case; `None` when
   * no key matches either way.
   */
  function NameLookup(row: Row, n: string): (h: Option<Option<string>>)
    ensures h.None? <==> forall j :: 0 <= j < |row| ==> !SameFolded(row[j].key, n)
  {
    var e := FindExact(row, n);
    if e < |row| then Some(row[e].value)
    else
      var f := FindFolded(row, n);
      if f < |row| then Some(row[f].value) else None
  }

  /** An exact key wins, wherever in the row it stands. */
  lemma NameLookupExact(row: Row, n: string, j: nat)
    requires j < |row| && row[j].key == n
    requires forall k :: 0 <= k < j ==> row[k].key != n
    ensures NameLookup(row, n) == Some(row[j].value)
  {
  }

  /** Without an exact key, the first key that matches ignoring case wins. */
  lemma NameLookupFolded(row: Row, n: string, j: nat)
    requires forall k :: 0 <= k < |row| ==> row[k].key != n
    requires j < |row| && SameFolded(row[j].key, n)
    requires forall k :: 0 <= k < j ==> !SameFolded(row[k].key, n)
    ensures NameLookup(row, n) == Some(row[j].value)
  {
    assert FindExact(row, n) == |row|;
  }

  /** `get`: the candidate names are tried in order and the first one that matches decides. */
  function Lookup(row: Row, names: seq<string>): (r: Option<string>)
    ensures r.Some? ==> exists j, k :: 0 <= j < |row| && 0 <= k < |names| && row[j].value == r && SameFolded(row[j].key, names[k])
    decreases |names|
  {
    if |names| == 0 then None
    else
      match NameLookup(row, names[0])
      case Some(v) => v
      case None => Lookup(row, names[1..])
  }

  /** The first name that matches some key decides the lookup; later names are not consulted. */
  lemma {:induction false} LookupFirstHit(row: Row, names: seq<string>, m: nat)
    requires m < |names| && NameLookup(row, names[m]).Some?
    requires forall k :: 0 <= k < m ==> NameLookup(row, names[k]).None?
    ensures Lookup(row, names) == NameLookup(row, names[m]).value
    decreases m
  {
    if m > 0 {
      assert NameLookup(row, names[0]).None?;
      assert forall k :: 0 <= k < m - 1 ==> names[1..][k] == names[k + 1];
      LookupFirstHit(row, names[1..], m - 1);
    }
  }

  /** When no name matches any key, the lookup finds nothing. */
  lemma {:induction false} LookupMiss(row: Row, names: seq<string>)
    requires forall k, j :: 0 <= k < |names| && 0 <= j < |row| ==> !SameFolded(row[j].key, names[k])
    ensures Lookup(row, names).None?
    decreases |names|
  {
    if |names| > 0 {
      assert NameLookup(row, names[0]).None?;
      assert forall k :: 0 <= k < |names| - 1 ==> names[1..][k] == names[k + 1];
      LookupMiss(row, names[1..]);
    }
  }

  /** The procedure of `get`: an exact-key test per name, then a scan of the row's items. */
  method Get(row: Row, names: seq<string>) returns (v: Option<string>)
    ensures v == Lookup(row, names)
  {
    var i := 0;
    while i < |names|
      invariant 0 <= i <= |names|
      invariant Lookup(row, names[i..]) == Lookup(row, names)
    {
      var n := names[i];
      assert names[i..][0] == n && names[i..][1..] == names[i + 1..];
      var e := FindExact(row, n);
      if e < |row| {
        return row[e].value;
      }
      var j := 0;
      while j < |row|
        invariant 0 <= j <= |row|
        invariant forall k :: 0 <= k < j ==> !SameFolded(row[k].key, n)
      {
        if Lower(row[j].key) == Lower(n) {
          NameLookupFolded(row, n, j);
          return row[j].value;
        }
        j := j + 1;
      }
      i := i + 1;
    }
    return None;
  }

  // ---------------------------------------------------------------------
  // Rows as DictReader builds them
  // ---------------------------------------------------------------------

  /** The keys of a row, in item order. */
  function Keys(row: Row): (ks: seq<string>)
    ensures |ks| == |row| && forall i :: 0 <= i < |row| ==> ks[i] == row[i].key
  {
    seq(|row|, i requires 0 <= i < |row| => row[i].key)
  }

  /** No key occurs twice, as in any dictionary. */
  predicate DistinctKeys(row: Row)
  {
    NoDups(Keys(row))
  }

  /** The first position of `k` among the names, or `|names|` when it is not there. */
  function First(names: seq<string>, k: string): (i: nat)
    ensures i <= |names|
    ensures i < |names| ==> names[i] == k
    ensures forall j :: 0 <= j < i ==> names[j] != k
    ensures k in names <==> i < |names|
    decreases |names|
  {
    if |names| == 0 then 0
    else
      var n := |names| - 1;
      var f := First(names[..n], k);
      assert forall j :: 0 <= j < n ==> names[..n][j] == names[j];
      if f < n then f
      else if names[n] == k then n
      else |names|
  }

  /** The last position of `k` before `n`, or -1 when it is not there. */
  function LastBefore(names: seq<string>, k: string, n: nat): (i: int)
    requires n <= |names|
    ensures -1 <= i < n
    ensures i >= 0 ==> names[i] == k
    ensures forall j :: i < j < n ==> names[j] != k
  {
    if n == 0 then -1
    else if names[n - 1] == k then n - 1
    else LastBefore(names, k, n - 1)
  }

  /** The names in the order they first appear, each once. */
  function Distinct(names: seq<string>): (r: seq<string>)
    ensures forall x :: x in r <==> x in names
    ensures NoDups(r)
    decreases |names|
  {
    if |names| == 0 then []
    else
      var init := names[..|names| - 1];
      var d := Distinct(init);
      var x := names[|names| - 1];
      assert names == init + [x];
      if x in d then d
      else
        assert forall i :: 0 <= i < |d| ==> (d + [x])[i] == d[i];
        d + [x]
  }

  /** The first appearance of a name in a longer sequence is its first appearance in the prefix that holds it. */
  lemma FirstInPrefix(names: seq<string>, n: nat, x: string)
    requires n <= |names| && x in names[..n]
    ensures First(names, x) == First(names[..n], x)
  {
    var f := First(names[..n], x);
    assert names[..n][f] == names[f];
    assert forall j :: 0 <= j < f ==> names[..n][j] == names[j];
  }

  lemma DistinctStep(names: seq<string>)
    requires |names| > 0
    ensures var init := names[..|names| - 1];
      Distinct(names) ==
        if names[|names| - 1] in Distinct(init) then Distinct(init) else Distinct(init) + [names[|names| - 1]]
  {
  }

  /** Each name of `d` first appears before the last name of `names`, where it first appears in the prefix. */
  ghost predicate FirstsBefore(names: seq<string>, d: seq<string>)
    requires |names| > 0
  {
    forall i :: 0 <= i < |d| ==> First(names, d[i]) == First(names[..|names| - 1], d[i]) < |names| - 1
  }

  /** Names already in the prefix keep their first position when one more name follows. */
  lemma FirstsInPrefix(names: seq<string>, d: seq<string>)
    requires |names| > 0
    requires forall y :: y in d ==> y in names[..|names| - 1]
    ensures FirstsBefore(names, d)
  {
    forall i | 0 <= i < |d|
      ensures First(names, d[i]) == First(names[..|names| - 1], d[i]) < |names| - 1
    {
      assert d[i] in d;
      FirstInPrefix(names, |names| - 1, d[i]);
    }
  }

  /** A name that is not in the prefix first appears at the end. */
  lemma FirstAtEnd(names: seq<string>)
    requires |names| > 0 && names[|names| - 1] !in names[..|names| - 1]
    ensures First(names, names[|names| - 1]) == |names| - 1
  {
    assert First(names[..|names| - 1], names[|names| - 1]) == |names| - 1;
  }

  /** The names of `d` stand in the order in which they first appear in `names`. */
  ghost predicate InFirstOrder(names: seq<string>, d: seq<string>)
  {
    forall i, j :: 0 <= i < j < |d| ==> First(names, d[i]) < First(names, d[j])
  }

  /** The first positions keep their order once every name's position is unchanged. */
  lemma OrderKeep(names: seq<string>, d: seq<string>)
    requires |names| > 0
    requires FirstsBefore(names, d)
    requires InFirstOrder(names[..|names| - 1], d)
    ensures InFirstOrder(names, d)
  {
  }

  /** A name first appearing at the end comes after all the others. */
  lemma OrderAppend(names: seq<string>, d: seq<string>, r: seq<string>)
    requires |names| > 0
    requires FirstsBefore(names, d)
    requires InFirstOrder(names[..|names| - 1], d)
    requires First(names, names[|names| - 1]) == |names| - 1
    requires r == d + [names[|names| - 1]]
    ensures InFirstOrder(names, r)
  {
    forall i, j | 0 <= i < j < |r|
      ensures First(names, r[i]) < First(names, r[j])
    {
      assert r[i] == d[i];
      if j < |d| {
        assert r[j] == d[j];
      } else {
        assert r[j] == names[|names| - 1];
      }
    }
  }

  /** `Distinct` keeps the names in order of first appearance. */
  lemma {:induction false} DistinctOrder(names: seq<string>)
    ensures InFirstOrder(names, Distinct(names))
    decreases |names|
  {
    if |names| > 0 {
      var d := Distinct(names[..|names| - 1]);
      DistinctOrder(names[..|names| - 1]);
      DistinctStep(names);
      FirstsInPrefix(names, d);
      if names[|names| - 1] in d {
        assert Distinct(names) == d;
        OrderKeep(names, d);
      } else {
        FirstAtEnd(names);
        OrderAppend(names, d, Distinct(names));
      }
    }
  }

  /** Column `j` of a line: its cell, or `None` (DictReader's `restval`) past the end of a short line. */
  function Cell(cells: Record, j: int): Option<string>
  {
    if 0 <= j < |cells| then Some(cells[j]) else None
  }

  /** `d[k] = v`: overwrite the item of `k` in place when there is one, else append. */
  function Assign(d: Row, k: string, v: Option<string>): Row
  {
    var p := FindExact(d, k);
    if p < |d| then d[p := Field(k, v)] else d + [Field(k, v)]
  }

  /** What the dictionary holds once the first `n` columns have been assigned. */
  ghost predicate Holds(header: seq<string>, cells: Record, n: nat, r: Row)
    requires n <= |header|
  {
    && Keys(r) == Distinct(header[..n])
    && (forall i :: 0 <= i < |r| ==> r[i].value == Cell(cells, LastBefore(header, r[i].key, n)))
  }

  /** Assigning a name seen before keeps every key in place and gives that name the new column. */
  lemma AssignSeen(header: seq<string>, cells: Record, n: nat, d: Row)
    requires 0 < n <= |header| && Holds(header, cells, n - 1, d)
    requires FindExact(d, header[n - 1]) < |d|
    ensures Holds(header, cells, n, Assign(d, header[n - 1], Cell(cells, n - 1)))
  {
    var k := header[n - 1];
    var p := FindExact(d, k);
    var r := d[p := Field(k, Cell(cells, n - 1))];
    assert Keys(r) == Keys(d);
    assert Keys(d)[p] == k;
    PrefixStep(header, n);
  }

  /** Assigning a new name appends it after every name that appeared earlier. */
  lemma AssignNew(header: seq<string>, cells: Record, n: nat, d: Row)
    requires 0 < n <= |header| && Holds(header, cells, n - 1, d)
    requires FindExact(d, header[n - 1]) == |d|
    ensures Holds(header, cells, n, Assign(d, header[n - 1], Cell(cells, n - 1)))
  {
    var k := header[n - 1];
    var r := d + [Field(k, Cell(cells, n - 1))];
    assert Keys(r) == Keys(d) + [k];
    assert k !in Keys(d);
    PrefixStep(header, n);
  }

  /** A prefix one longer unfolds to the shorter prefix and the next name. */
  lemma PrefixStep(names: seq<string>, n: nat)
    requires 0 < n <= |names|
    ensures names[..n][..n - 1] == names[..n - 1] && names[..n][n - 1] == names[n - 1]
    ensures Distinct(names[..n]) ==
      if names[n - 1] in Distinct(names[..n - 1]) then Distinct(names[..n - 1])
      else Distinct(names[..n - 1]) + [names[n - 1]]
  {
    assert names[..n][..n - 1] == names[..n - 1];
  }

  /** The dictionary after the first `n` columns, each name assigned its column's value in turn. */
  function Build(header: seq<string>, cells: Record, n: nat): (r: Row)
    requires n <= |header|
    ensures Holds(header, cells, n, r)
    decreases n
  {
    if n == 0 then []
    else
      var d := Build(header, cells, n - 1);
      var r := Assign(d, header[n - 1], Cell(cells, n - 1));
      if FindExact(d, header[n - 1]) < |d| then
        AssignSeen(header, cells, n, d);
        r
      else
        AssignNew(header, cells, n, d);
        r
  }

  /**
   * DictReader's row for one line: one item per distinct header name, in
   * the order the names first appear (see `DistinctOrder`), holding the
   * cell of the LAST column with that name, or `None` when that column lies
   * past the end of a short line.
   */
  function DictRow(header: seq<string>, cells: Record): (r: Row)
    ensures Keys(r) == Distinct(header)
    ensures forall i :: 0 <= i < |r| ==> r[i].value == Cell(cells, LastBefore(header, r[i].key, |header|))
  {
    assert header[..|header|] == header;
    Build(header, cells, |header|)
  }

  /** In a dictionary, the exact key finds its own item. */
  lemma ExactKeyFinds(row: Row, i: nat)
    requires DistinctKeys(row) && i < |row|
    ensures NameLookup(row, row[i].key) == Some(row[i].value)
  {
    assert Keys(row)[i] == row[i].key;
  }

  /**
   * A repeated column name: the later column holds the value, and on a line
   * too short to reach it the value is `None`, which fails the row.
   */
  lemma RepeatedColumnLastWins(parse: Parser)
    ensures Lookup(DictRow(["sharpe", "max_dd", "sharpe"], ["1.0", "-0.1", "2.0"]), SharpeColumns) == Some("2.0")
    ensures RowMetrics(DictRow(["sharpe", "max_dd", "sharpe"], ["1.0", "-0.1"]), parse) == Failure(MissingColumns)
  {
    var header := ["sharpe", "max_dd", "sharpe"];
    assert LastBefore(header, "sharpe", 3) == 2;
    var r := DictRow(header, ["1.0", "-0.1", "2.0"]);
    assert "sharpe" in Keys(r);
    var i :| 0 <= i < |r| && Keys(r)[i] == "sharpe";
    ExactKeyFinds(r, i);
    var q := DictRow(header, ["1.0", "-0.1"]);
    assert "sharpe" in Keys(q);
    var m :| 0 <= m < |q| && Keys(q)[m] == "sharpe";
    ExactKeyFinds(q, m);
    assert Lookup(q, SharpeColumns) == None;
  }

  // ---------------------------------------------------------------------
  // The fold over the rows
  // ---------------------------------------------------------------------

  /**
   * A row's contribution: an error when either column is missing (or has
   * no value), nothing when either value fails to parse, else both numbers.
   */
  function RowMetrics(row: Row, parse: Parser): (r: Result<Option<Metrics>, EvalError>)
    ensures r.Failure? <==> Lookup(row, SharpeColumns).None? || Lookup(row, DrawdownColumns).None?
    ensures r.Failure? ==> r.error == MissingColumns
    ensures r.Success? && r.value.Some? ==>
      && parse(Lookup(row, SharpeColumns).value) == Some(r.value.value.sharpe)
      && parse(Lookup(row, DrawdownColumns).value) == Some(r.value.value.drawdown)
    ensures r == Success(None) ==>
      parse(Lookup(row, SharpeColumns).value).None? || parse(Lookup(row, DrawdownColumns).value).None?
  {
    var s := Lookup(row, SharpeColumns);
    var d := Lookup(row, DrawdownColumns);
    if s.None? || d.None? then Failure(MissingColumns)
    else
      match (parse(s.value), parse(d.value))
      case (Some(x), Some(y)) => Success(Some(Metrics(x, y)))
      case _ => Success(None)
  }

  /** Fold one row's numbers into the running extremes. */
  function Merge(acc: Option<Extremes>, m: Metrics): (e: Extremes)
    ensures e.bestSharpe >= m.sharpe && e.worstDd <= m.drawdown
    ensures acc.Some? ==> e.bestSharpe >= acc.value.bestSharpe && e.worstDd <= acc.value.worstDd
    ensures e.bestSharpe == m.sharpe || (acc.Some? && e.bestSharpe == acc.value.bestSharpe)
    ensures e.worstDd == m.drawdown || (acc.Some? && e.worstDd == acc.value.worstDd)
  {
    match acc
    case None => Extremes(m.sharpe, m.drawdown)
    case Some(x) =>
      Extremes(if m.sharpe > x.bestSharpe then m.sharpe else x.bestSharpe,
               if m.drawdown < x.worstDd then m.drawdown else x.worstDd)
  }

  /**
   * What one line of the table contributes: a blank line is skipped, as
   * `csv.DictReader` skips it; any other line is turned into its row
   * dictionary first.
   */
  function RecordMetrics(header: seq<string>, cells: Record, parse: Parser): (r: Result<Option<Metrics>, EvalError>)
    ensures |cells| == 0 ==> r == Success(None)
    ensures r.Failure? ==> r.error == MissingColumns
  {
    if |cells| == 0 then Success(None) else RowMetrics(DictRow(header, cells), parse)
  }

  /** What each line contributes, in line order. */
  function Outcomes(header: seq<string>, records: seq<Record>, parse: Parser): (o: seq<Result<Option<Metrics>, EvalError>>)
    ensures |o| == |records|
    ensures forall i :: 0 <= i < |records| ==> o[i] == RecordMetrics(header, records[i], parse)
  {
    seq(|records|, i requires 0 <= i < |records| => RecordMetrics(header, records[i], parse))
  }

  /** The fold over the contributions in order, stopping at the first error. */
  function Fold(outs: seq<Result<Option<Metrics>, EvalError>>): (r: Result<Option<Extremes>, EvalError>)
    ensures |outs| == 0 ==> r == Success(None)
    ensures r.Failure? ==> exists i :: 0 <= i < |outs| && outs[i] == Failure(r.error)
    decreases |outs|
  {
    if |outs| == 0 then Success(None)
    else Step(Fold(outs[..|outs| - 1]), outs[|outs| - 1])
  }

  /** One contribution folded into the running result: an error stays, a new error stops, a pair is merged. */
  function Step(prev: Result<Option<Extremes>, EvalError>, o: Result<Option<Metrics>, EvalError>)
    : (r: Result<Option<Extremes>, EvalError>)
    ensures prev.Failure? ==> r == prev
    ensures prev.Success? && o.Failure? ==> r == Failure(o.error)
    ensures prev.Success? && o == Success(None) ==> r == prev
    ensures prev.Success? && o.Success? && o.value.Some? ==> r == Success(Some(Merge(prev.value, o.value.value)))
  {
    match prev
    case Failure(err) => Failure(err)
    case Success(acc) =>
      match o
      case Failure(err) => Failure(err)
      case Success(None) => Success(acc)
      case Success(Some(m)) => Success(Some(Merge(acc, m)))
  }

  /** The fold over a longer prefix takes one more step. */
  lemma FoldPrefix(outs: seq<Result<Option<Metrics>, EvalError>>, i: nat)
    requires i < |outs|
    ensures Fold(outs[..i + 1]) == Step(Fold(outs[..i]), outs[i])
  {
    assert outs[..i + 1][..i] == outs[..i];
  }

  /** The fold over the lines of the table. */
  function Aggregate(header: seq<string>, records: seq<Record>, parse: Parser): (r: Result<Option<Extremes>, EvalError>)
    ensures r.Failure? ==> r.error == MissingColumns
  {
    Fold(Outcomes(header, records, parse))
  }

  /** Contribution `i` is the parsed pair `m`. */
  ghost predicate Parsed(outs: seq<Result<Option<Metrics>, EvalError>>, i: int, m: Metrics)
  {
    0 <= i < |outs| && outs[i] == Success(Some(m))
  }

  /** The fold fails exactly when some contribution is an error, and then with the first such error. */
  lemma {:induction false} FoldFailure(outs: seq<Result<Option<Metrics>, EvalError>>)
    ensures Fold(outs).Failure? <==> exists i :: 0 <= i < |outs| && outs[i].Failure?
    ensures Fold(outs).Failure? ==> exists i :: 0 <= i < |outs| && outs[i] == Failure(Fold(outs).error)
    decreases |outs|
  {
    if |outs| > 0 {
      var init := outs[..|outs| - 1];
      FoldFailure(init);
      assert forall i :: 0 <= i < |init| ==> init[i] == outs[i];
      if Fold(outs).Failure? && !Fold(init).Failure? {
        assert outs[|outs| - 1] == Failure(Fold(outs).error);
      }
    }
  }

  /** Without errors, the fold has nothing exactly when no contribution parsed. */
  lemma {:induction false} FoldNothing(outs: seq<Result<Option<Metrics>, EvalError>>)
    ensures Fold(outs) == Success(None) <==> forall i :: 0 <= i < |outs| ==> outs[i] == Success(None)
    decreases |outs|
  {
    if |outs| > 0 {
      var init := outs[..|outs| - 1];
      FoldNothing(init);
      assert forall i :: 0 <= i < |init| ==> init[i] == outs[i];
      if Fold(outs) == Success(None) {
        assert outs[|outs| - 1] == Success(None);
      }
    }
  }

  /** Every parsed pair lies within the extremes, and each extreme is attained by a parsed pair. */
  lemma {:induction false} FoldExtremes(outs: seq<Result<Option<Metrics>, EvalError>>)
    requires Fold(outs).Success? && Fold(outs).value.Some?
    ensures var e := Fold(outs).value.value;
      && (forall i, m :: Parsed(outs, i, m) ==> m.sharpe <= e.bestSharpe && e.worstDd <= m.drawdown)
      && (exists i, m :: Parsed(outs, i, m) && m.sharpe == e.bestSharpe)
      && (exists i, m :: Parsed(outs, i, m) && m.drawdown == e.worstDd)
    decreases |outs|
  {
    var n := |outs| - 1;
    var init := outs[..n];
    assert forall i :: 0 <= i < |init| ==> init[i] == outs[i];
    assert forall i, m :: Parsed(init, i, m) ==> Parsed(outs, i, m);
    var acc := Fold(init).value;
    if acc.Some? {
      FoldExtremes(init);
    } else {
      FoldNothing(init);
    }
    match outs[n]
    case Success(None) =>
      assert forall i, m :: Parsed(outs, i, m) ==> i < n && Parsed(init, i, m);
    case Success(Some(m)) =>
      assert Parsed(outs, n, m);
      assert forall i, m' :: Parsed(outs, i, m') ==> i == n || Parsed(init, i, m');
  }

  // ---------------------------------------------------------------------
  // The gate
  // ---------------------------------------------------------------------

  /**
   * `evaluate`: an empty header is an error before any row is read; a
   * missing column is an error; no parseable row is an error; otherwise a
   * regression is reported when the best Sharpe ratio is below its
   * threshold or the worst drawdown is below its (negative) threshold.
   */
  function Evaluate(header: seq<string>, records: seq<Record>, parse: Parser, sharpeThreshold: real, maxDdThreshold: real)
    : (r: Result<Summary, EvalError>)
    ensures |header| == 0 ==> r == Failure(EmptyHeader)
    ensures r.Success? ==>
      && r.value.sharpeThreshold == sharpeThreshold && r.value.maxDdThreshold == maxDdThreshold
      && (r.value.regression <==> r.value.bestSharpe < sharpeThreshold || r.value.worstDd < maxDdThreshold)
  {
    if |header| == 0 then Failure(EmptyHeader)
    else
      match Aggregate(header, records, parse)
      case Failure(err) => Failure(err)
      case Success(None) => Failure(NoMetrics)
      case Success(Some(e)) =>
        Success(Summary(e.bestSharpe, e.worstDd, sharpeThreshold, maxDdThreshold,
                        e.bestSharpe < sharpeThreshold || e.worstDd < maxDdThreshold))
  }

  /** The gate's outcomes, each in terms of the rows. */
  lemma EvaluateOutcomes(header: seq<string>, records: seq<Record>, parse: Parser, sharpeThreshold: real, maxDdThreshold: real)
    ensures var r := Evaluate(header, records, parse, sharpeThreshold, maxDdThreshold);
      && (r == Failure(EmptyHeader) <==> |header| == 0)
      && (r == Failure(MissingColumns) <==>
            |header| > 0 && exists i :: 0 <= i < |records| && RecordMetrics(header, records[i], parse).Failure?)
      && (r == Failure(NoMetrics) <==>
            |header| > 0 && forall i :: 0 <= i < |records| ==> RecordMetrics(header, records[i], parse) == Success(None))
  {
    if |header| > 0 {
      var a := Aggregate(header, records, parse);
      var r := Evaluate(header, records, parse, sharpeThreshold, maxDdThreshold);
      assert r == Failure(MissingColumns) <==> a.Failure?;
      assert r == Failure(NoMetrics) <==> a == Success(None);
      assert r != Failure(EmptyHeader);
      var outs := Outcomes(header, records, parse);
      assert a == Fold(outs);
      FoldFailure(outs);
      FoldNothing(outs);
    }
  }

  /**
   * A successful gate reports the maximum Sharpe ratio and the minimum
   * drawdown over the rows that parse, and a regression exactly when one
   * of them misses its threshold.
   */
  lemma EvaluateSummary(header: seq<string>, records: seq<Record>, parse: Parser, sharpeThreshold: real, maxDdThreshold: real)
    requires Evaluate(header, records, parse, sharpeThreshold, maxDdThreshold).Success?
    ensures var s := Evaluate(header, records, parse, sharpeThreshold, maxDdThreshold).value;
      && (forall i, m :: Parsed(Outcomes(header, records, parse), i, m) ==> m.sharpe <= s.bestSharpe && s.worstDd <= m.drawdown)
      && (exists i, m :: Parsed(Outcomes(header, records, parse), i, m) && m.sharpe == s.bestSharpe)
      && (exists i, m :: Parsed(Outcomes(header, records, parse), i, m) && m.drawdown == s.worstDd)
      && s.sharpeThreshold == sharpeThreshold && s.maxDdThreshold == maxDdThreshold
      && (s.regression <==> s.bestSharpe < sharpeThreshold || s.worstDd < maxDdThreshold)
  {
    FoldExtremes(Outcomes(header, records, parse));
  }

  /**
   * The body of the loop of `evaluate` for one line: a blank line is
   * skipped, otherwise both columns are looked up with `Get`, a missing one
   * is an error, and a value that does not parse skips the line.
   */
  method ReadRecord(header: seq<string>, cells: Record, parse: Parser) returns (o: Result<Option<Metrics>, EvalError>)
    ensures o == RecordMetrics(header, cells, parse)
  {
    if |cells| == 0 {
      return Success(None);
    }
    var row := DictRow(header, cells);
    var s := Get(row, SharpeColumns);
    var d := Get(row, DrawdownColumns);
    if s.None? || d.None? {
      return Failure(MissingColumns);
    }
    var x := parse(s.value);
    var y := parse(d.value);
    if x.Some? && y.Some? {
      return Success(Some(Metrics(x.value, y.value)));
    }
    return Success(None);
  }

  /**
   * The loop of `evaluate`, with the `-inf`/`inf` starting values as
   * absent extremes; each row is looked up with `Get` and stops the loop
   * with an error when a column is missing.
   */
  method EvaluateRows(header: seq<string>, records: seq<Record>, parse: Parser, sharpeThreshold: real, maxDdThreshold: real)
    returns (r: Result<Summary, EvalError>)
    ensures r == Evaluate(header, records, parse, sharpeThreshold, maxDdThreshold)
  {
    if |header| == 0 {
      return Failure(EmptyHeader);
    }
    ghost var outs := Outcomes(header, records, parse);
    var best: Option<real> := None;
    var worst: Option<real> := None;
    var i := 0;
    while i < |records|
      invariant 0 <= i <= |records|
      invariant Fold(outs[..i]).Success?
      invariant Fold(outs[..i]).value.None? ==> best.None? && worst.None?
      invariant Fold(outs[..i]).value.Some? ==>
        var e := Fold(outs[..i]).value.value;
        best == Some(e.bestSharpe) && worst == Some(e.worstDd)
    {
      var o := ReadRecord(header, records[i], parse);
      FoldPrefix(outs, i);
      match o {
        case Failure(err) =>
          FoldFailure(outs);
          return Failure(err);
        case Success(None) =>
        case Success(Some(m)) =>
          if best.None? || m.sharpe > best.value {
            best := Some(m.sharpe);
          }
          if worst.None? || m.drawdown < worst.value {
            worst := Some(m.drawdown);
          }
      }
      i := i + 1;
    }
    assert outs[..i] == outs;
    if best.None? || worst.None? {
      return Failure(NoMetrics);
    }
    r := Success(Summary(best.value, worst.value, sharpeThreshold, maxDdThreshold,
                         best.value < sharpeThreshold || worst.value < maxDdThreshold));
  }

  /** With the default thresholds, a best Sharpe ratio of 1.0 and a worst drawdown of -0.20 pass the gate. */
  lemma DefaultThresholdsInclusive(header: seq<string>, records: seq<Record>, parse: Parser)
    requires Evaluate(header, records, parse, DefaultSharpeThreshold, DefaultMaxDdThreshold).Success?
    ensures var s := Evaluate(header, records, parse, DefaultSharpeThreshold, DefaultMaxDdThreshold).value;
      s.bestSharpe == 1.0 && s.worstDd == -0.20 ==> !s.regression
  {
  }
}
