/** The dynamic `UPDATE <table> SET ...` statement that UpdateTopic and
    UpdateStudyPlan build: one `column = $k, ` per supplied field with `k`
    counting from 1, the last two characters cut off, then ` WHERE id = $n`
    with `n` one past the last placeholder. */
module QueryBuilder {
  import opened Wrappers
  import opened Text

  /** A statement argument: an element of the handlers' `args` slice. */
  datatype Arg = RealArg(r: real) | BoolArg(b: bool) | TextArg(s: string) | IdArg(n: int)

  /** A statement as sent to the store: its text and its arguments. `columns`
      records, in order, the columns the SET list assigns, which is how the
      store below reads the text. */
  datatype Statement = Statement(text: string, columns: seq<string>, args: seq<Arg>)

  /** How the store applies a SET list to a row: each `column = value`
      assignment in turn, left to right, by the table's `step`, which is None
      for a column the table does not have or a value of the wrong type. */
  function ApplyEach<R>(x: R, columns: seq<string>, args: seq<Arg>, step: (R, string, Arg) -> Option<R>): Option<R>
    requires |columns| == |args|
    decreases |columns|
  {
    if columns == [] then Some(x)
    else
      var y := step(x, columns[0], args[0]);
      if y.None? then None else ApplyEach(y.value, columns[1..], args[1..], step)
  }

  /** A SET list of one assignment is that one step. */
  lemma ApplyOne<R>(x: R, column: string, arg: Arg, step: (R, string, Arg) -> Option<R>)
    ensures ApplyEach(x, [column], [arg], step) == step(x, column, arg)
  {
    assert [column][1..] == [] && [arg][1..] == [];
  }

  /** Assignments compose left to right: a leading list of at most one
      assignment that turns `x` into `y` can be split off, and the rest then
      applies to `y`. */
  lemma ApplyPrefix<R>(x: R, c1: seq<string>, v1: seq<Arg>, c2: seq<string>, v2: seq<Arg>,
                       step: (R, string, Arg) -> Option<R>, y: R)
    requires |c1| == |v1| <= 1 && |c2| == |v2|
    requires ApplyEach(x, c1, v1, step) == Some(y)
    ensures ApplyEach(x, c1 + c2, v1 + v2, step) == ApplyEach(y, c2, v2, step)
  {
    if c1 != [] {
      assert (c1 + c2)[1..] == c2 && (v1 + v2)[1..] == v2;
      assert c1[1..] == [] && v1[1..] == [];
    } else {
      assert c1 + c2 == c2 && v1 + v2 == v2;
    }
  }

  /** `column = $n`. */
  function Assign(column: string, n: nat): string {
    column + " = $" + Itoa(n)
  }

  /** What the `query += column + " = $" + strconv.Itoa(argIndex) + ", "` lines
      have appended once `columns` have been supplied, in that order. */
  function Appended(columns: seq<string>): string {
    if columns == [] then ""
    else Appended(columns[..|columns| - 1]) + Assign(columns[|columns| - 1], |columns|) + ", "
  }

  /** One more supplied column appends its assignment and a ", ". */
  lemma AppendedSnoc(columns: seq<string>, c: string)
    ensures Appended(columns + [c]) == Appended(columns) + Assign(c, |columns| + 1) + ", "
  {
    assert (columns + [c])[..|columns|] == columns;
  }

  /** The text after one more `query += column + " = $" + Itoa(k) + ", "`. */
  lemma BuildStep(head: string, columns: seq<string>, c: string)
    ensures head + Appended(columns) + Assign(c, |columns| + 1) + ", " == head + Appended(columns + [c])
  {
    AppendedSnoc(columns, c);
    Regroup(head, Appended(columns), Assign(c, |columns| + 1), ", ");
  }

  lemma Regroup(h: string, a: string, s: string, t: string)
    ensures h + a + s + t == h + (a + s + t)
  {
  }

  /** One `if` of the builder: `query += column + " = $" + Itoa(argIndex) + ", "`,
      the value appended to `args`, and `argIndex++`. */
  method AddAssignment(head: string, query: string, columns: seq<string>, args: seq<Arg>, argIndex: int,
                       column: string, value: Arg)
    returns (query': string, columns': seq<string>, args': seq<Arg>, argIndex': int)
    requires query == head + Appended(columns) && argIndex == |columns| + 1
    ensures query' == head + Appended(columns') && argIndex' == |columns'| + 1
    ensures columns' == columns + [column] && args' == args + [value]
  {
    BuildStep(head, columns, column);
    query' := query + Assign(column, argIndex) + ", ";
    columns', args' := columns + [column], args + [value];
    argIndex' := argIndex + 1;
  }

  /** `"UPDATE " + table + " SET "`, the text the builder starts from. */
  function Head(table: string): (h: string)
    ensures |h| == |table| + 12
  {
    "UPDATE " + table + " SET "
  }

  /** ` WHERE id = $n`, the clause appended after the cut. */
  function Where(n: int): string {
    " WHERE id = $" + Itoa(n)
  }

  /** `query = query[:len(query)-2]` followed by `query += where`. */
  function Finish(built: string, where: string): string
    requires |built| >= 2
  {
    built[..|built| - 2] + where
  }

  /** Cutting the last two characters of the built text and appending a
      clause gives `Finish` of the text. */
  lemma BuildFinish(table: string, columns: seq<string>, query: string, where: string)
    requires query == "UPDATE " + table + " SET " + Appended(columns)
    ensures |query| >= 2
    ensures query[..|query| - 2] + where == Finish(Head(table) + Appended(columns), where)
  {
    assert query == Head(table) + Appended(columns);
  }

  /** The builder's tail: `query = query[:len(query)-2]`, then
      `query += " WHERE id = $" + strconv.Itoa(argIndex)` and the id appended
      to the arguments. */
  method FinishUpdate(table: string, built: string, columns: seq<string>, args: seq<Arg>, argIndex: int, id: int)
    returns (q: Statement)
    requires built == "UPDATE " + table + " SET " + Appended(columns) && argIndex == |columns| + 1
    ensures q == Statement(UpdateText(table, columns), columns, args + [IdArg(id)])
  {
    var where := " WHERE id = $" + Itoa(argIndex);
    BuildFinish(table, columns, built, where);
    var query := built[..|built| - 2];
    query := query + where;
    q := Statement(query, columns, args + [IdArg(id)]);
  }

  /** Removing what was appended last gives back what came before it. */
  lemma CutSuffix(x: string, y: string)
    ensures (x + y)[..|x|] == x
  {
  }

  /** The SET list of a well-formed statement: `c1 = $1, c2 = $2, ...`. */
  function SetList(columns: seq<string>): string {
    if |columns| <= 1 then (if columns == [] then "" else Assign(columns[0], 1))
    else SetList(columns[..|columns| - 1]) + ", " + Assign(columns[|columns| - 1], |columns|)
  }

  /** The appended text is the SET list followed by one trailing ", ", which is
      exactly what cutting off the last two characters removes. */
  lemma {:induction false} AppendedSetList(columns: seq<string>)
    requires columns != []
    ensures Appended(columns) == SetList(columns) + ", "
  {
    var init := columns[..|columns| - 1];
    if |columns| > 1 {
      AppendedSetList(init);
    } else {
      assert init == [];
    }
  }

  /** The text the handlers send: the prefix with the appended assignments, the
      last two characters removed, and the WHERE clause. */
  function UpdateText(table: string, columns: seq<string>): (q: string)
  {
    Finish(Head(table) + Appended(columns), Where(|columns| + 1))
  }

  /** With at least one column the statement is well formed: the SET list with
      placeholders $1..$k, no trailing comma, and the id as placeholder $(k+1). */
  lemma UpdateTextShape(table: string, columns: seq<string>)
    requires columns != []
    ensures UpdateText(table, columns) == Head(table) + SetList(columns) + Where(|columns| + 1)
  {
    FinishShape(table, columns, Where(|columns| + 1));
  }

  /** The cut removes exactly the trailing ", " after the SET list. */
  lemma FinishShape(table: string, columns: seq<string>, where: string)
    requires columns != []
    ensures |Head(table) + Appended(columns)| >= 2
    ensures Finish(Head(table) + Appended(columns), where) == Head(table) + SetList(columns) + where
  {
    AppendedSetList(columns);
    var front := Head(table) + SetList(columns);
    var built := Head(table) + Appended(columns);
    assert built == front + ", ";
    CutSuffix(front, ", ");
  }

  /** With no column at all, the cut eats the end of the keyword SET itself:
      the statement is not valid SQL. */
  lemma EmptyUpdateText(table: string)
    ensures UpdateText(table, []) == "UPDATE " + table + " SE WHERE id = $1"
  {
    var built := "UPDATE " + table + " SET ";
    assert built[..|built| - 2] == "UPDATE " + table + " SE";
    assert Itoa(1) == "1";
  }
}
