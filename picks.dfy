/** The picks file: one line `name:t1|t2|…` per entrant, read into a dictionary keyed by name. */
module Picks {
  import opened Seqs
  import opened Wrappers
  import opened Text

  /** `line.split(":")`, then `parts[1].split("|")`; a line without ':' has no `parts[1]`. */
  function ParseLine(line: string): (r: Result<(string, seq<string>)>)
    ensures r.Ok? <==> ':' in line
    ensures r.Err? ==> r.error == IndexError
  {
    var parts := Split(line, ':');
    if |parts| < 2 then Err(IndexError) else Ok((parts[0], Split(parts[1], '|')))
  }

  /** A line written as `name:t1|…|tn` reads back as that name and those teams. */
  lemma ParseLineFormat(name: string, teams: seq<string>)
    requires ':' !in name
    requires |teams| >= 1 && forall t <- teams :: ':' !in t && '|' !in t
    ensures ParseLine(name + [':'] + Join(teams, '|')) == Ok((name, teams))
  {
    var tail := Join(teams, '|');
    JoinFree(teams, '|', ':');
    assert Join([name, tail], ':') == name + [':'] + tail;
    SplitJoin([name, tail], ':');
    SplitJoin(teams, '|');
  }

  /** The dictionary `d[name] = f(teams)` built over the lines in order; the first failure aborts. */
  function ParseTable<V>(lines: seq<string>, f: seq<string> -> Result<V>): (r: Result<Dict<string, V>>)
    ensures r.Ok? ==> r.value.Valid()
  {
    if lines == [] then Ok(EmptyDict())
    else
      var d :- ParseTable(lines[..|lines| - 1], f);
      var entry :- ParseLine(lines[|lines| - 1]);
      var v :- f(entry.1);
      Ok(d.Put(entry.0, v))
  }

  /** The line parses and its teams are accepted by `f`. */
  predicate LineOk<V>(line: string, f: seq<string> -> Result<V>) {
    ParseLine(line).Ok? && f(ParseLine(line).value.1).Ok?
  }

  predicate AllOk<V>(lines: seq<string>, f: seq<string> -> Result<V>) {
    forall i :: 0 <= i < |lines| ==> LineOk(lines[i], f)
  }

  /** The entrant name of a line that parses. */
  function Name(line: string): string
    requires ':' in line
  {
    ParseLine(line).value.0
  }

  /** The exception a bad line raises. */
  function LineError<V>(line: string, f: seq<string> -> Result<V>): Error
    requires !LineOk(line, f)
  {
    if ParseLine(line).Err? then ParseLine(line).error else f(ParseLine(line).value.1).error
  }

  /** Index of the first line that fails, or the number of lines when none does. */
  function FirstBad<V>(lines: seq<string>, f: seq<string> -> Result<V>): (b: nat)
    ensures b <= |lines|
    ensures forall j :: 0 <= j < b ==> LineOk(lines[j], f)
    ensures b < |lines| ==> !LineOk(lines[b], f)
  {
    if lines == [] then 0
    else
      var b := FirstBad(lines[..|lines| - 1], f);
      if b < |lines| - 1 then b
      else if LineOk(lines[|lines| - 1], f) then |lines|
      else |lines| - 1
  }

  /** The entrant names, one per line. */
  function Names<V>(lines: seq<string>, f: seq<string> -> Result<V>): (ns: seq<string>)
    requires AllOk(lines, f)
    ensures |ns| == |lines|
  {
    seq(|lines|, i requires 0 <= i < |lines| && AllOk(lines, f) => Name(lines[i]))
  }

  /** The names in order of first occurrence: the key order of a Python dictionary. */
  function Dedup<T(==)>(s: seq<T>): (d: seq<T>)
    ensures Distinct(d)
    ensures forall x <- d :: x in s
    ensures forall x <- s :: x in d
  {
    if s == [] then []
    else
      var d := Dedup(s[..|s| - 1]);
      if s[|s| - 1] in d then d else d + [s[|s| - 1]]
  }

  /** The table is built exactly when every line parses, and otherwise fails with the first bad line's error. */
  lemma {:induction false} ParseTableOutcome<V>(lines: seq<string>, f: seq<string> -> Result<V>)
    ensures ParseTable(lines, f).Ok? <==> FirstBad(lines, f) == |lines|
    ensures ParseTable(lines, f).Err? ==> ParseTable(lines, f).error == LineError(lines[FirstBad(lines, f)], f)
  {
    if lines != [] {
      var init := lines[..|lines| - 1];
      ParseTableOutcome(init, f);
      if FirstBad(init, f) < |init| {
        assert lines[FirstBad(init, f)] == init[FirstBad(init, f)];
      }
    }
  }

  /** The keys are the names in order of first occurrence. */
  lemma {:induction false} ParseTableKeys<V>(lines: seq<string>, f: seq<string> -> Result<V>)
    requires ParseTable(lines, f).Ok?
    ensures AllOk(lines, f)
    ensures ParseTable(lines, f).value.keys == Dedup(Names(lines, f))
  {
    ParseTableOutcome(lines, f);
    if lines != [] {
      var init := lines[..|lines| - 1];
      ParseTableKeys(init, f);
      NamesInit(lines, f);
    }
  }

  lemma NamesInit<V>(lines: seq<string>, f: seq<string> -> Result<V>)
    requires lines != [] && AllOk(lines, f)
    ensures AllOk(lines[..|lines| - 1], f)
    ensures var ns := Names(lines, f);
            ns[..|lines| - 1] == Names(lines[..|lines| - 1], f) && ns[|lines| - 1] == Name(lines[|lines| - 1])
  {
    var init := lines[..|lines| - 1];
    assert AllOk(init, f) by {
      forall i | 0 <= i < |init| ensures LineOk(init[i], f) {
        assert init[i] == lines[i];
      }
    }
    assert Names(lines, f)[..|lines| - 1] == Names(init, f);
  }

  /** A name maps to the value of the last line that carries it. */
  lemma {:induction false} ParseTableLastLine<V>(lines: seq<string>, f: seq<string> -> Result<V>, i: nat)
    requires ParseTable(lines, f).Ok?
    requires i < |lines| && AllOk(lines, f)
    requires forall j :: i < j < |lines| ==> Name(lines[j]) != Name(lines[i])
    ensures Name(lines[i]) in ParseTable(lines, f).value.vals
    ensures ParseTable(lines, f).value.vals[Name(lines[i])] == f(ParseLine(lines[i]).value.1).value
  {
    var init := lines[..|lines| - 1];
    if i < |lines| - 1 {
      ParseTableLastLine(init, f, i);
    }
  }

  /** One more good line puts its name and value into the table built so far. */
  lemma ParseTableStep<V>(lines: seq<string>, f: seq<string> -> Result<V>, i: nat, d: Dict<string, V>)
    requires i < |lines|
    requires ParseTable(lines[..i], f) == Ok(d)
    requires LineOk(lines[i], f)
    ensures ParseTable(lines[..i + 1], f) ==
      Ok(d.Put(ParseLine(lines[i]).value.0, f(ParseLine(lines[i]).value.1).value))
  {
    assert lines[..i + 1][..i] == lines[..i];
  }

  /** A bad line aborts the whole table with its error. */
  lemma ParseTableStop<V>(lines: seq<string>, f: seq<string> -> Result<V>, i: nat)
    requires i < |lines|
    requires ParseTable(lines[..i], f).Ok?
    requires !LineOk(lines[i], f)
    ensures ParseTable(lines, f) == Err(LineError(lines[i], f))
  {
    assert lines[..i + 1][..i] == lines[..i];
    ParseTableErrSticks(lines, f, i + 1);
  }

  lemma ParseTableErrStep<V>(lines: seq<string>, f: seq<string> -> Result<V>)
    requires lines != [] && ParseTable(lines[..|lines| - 1], f).Err?
    ensures ParseTable(lines, f) == ParseTable(lines[..|lines| - 1], f)
  {
  }

  /** Once a prefix of the lines fails, the whole table fails with the same error. */
  lemma {:induction false} ParseTableErrSticks<V>(lines: seq<string>, f: seq<string> -> Result<V>, i: nat)
    requires i <= |lines|
    requires ParseTable(lines[..i], f).Err?
    ensures ParseTable(lines, f) == ParseTable(lines[..i], f)
  {
    if i < |lines| {
      var init := lines[..|lines| - 1];
      assert init[..i] == lines[..i];
      ParseTableErrSticks(init, f, i);
      ParseTableErrStep(lines, f);
    } else {
      assert lines[..i] == lines;
    }
  }
}
