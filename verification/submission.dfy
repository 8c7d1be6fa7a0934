/** `create_csv`: the submission file written for the target users, and a
    reader for it that recovers what was written. */
module Submission {
  import opened Results
  import opened Text

  /** The first line of every submission file. */
  const HeaderLine := "user_id,item_list"

  const Header := HeaderLine + "\n"

  /** The recommended items of one user as written: `' '.join(map(str, items))`. */
  function ItemsText(items: seq<int>): string {
    Join(seq(|items|, k requires 0 <= k < |items| => IntToString(items[k])), " ")
  }

  /** One data line without its line break: the id, a comma and a space, the items. */
  function LineText(id: int, items: seq<int>): string {
    IntToString(id) + ", " + ItemsText(items)
  }

  /** One written data line. */
  function DataLine(id: int, items: seq<int>): string {
    LineText(id, items) + "\n"
  }

  /** The data lines for `zip(target_ids, results)`: one per pair, stopping at
      the end of the shorter input. */
  function Body(targetIds: seq<int>, results: seq<seq<int>>): (r: string)
    ensures r == "" <==> |targetIds| == 0 || |results| == 0
    ensures r != "" ==> r[|r| - 1] == '\n'
    decreases |targetIds|
  {
    if |targetIds| == 0 || |results| == 0 then ""
    else DataLine(targetIds[0], results[0]) + Body(targetIds[1..], results[1..])
  }

  /** The whole file `create_csv` writes. */
  function CreateCsv(targetIds: seq<int>, results: seq<seq<int>>): (text: string)
    ensures |text| >= |Header| && text[..|Header|] == Header
  {
    Header + Body(targetIds, results)
  }

  function Min(a: nat, b: nat): nat {
    if a < b then a else b
  }

  /** The data lines, without line breaks, in the order of the ids. */
  function Lines(targetIds: seq<int>, results: seq<seq<int>>): (ls: seq<string>)
    ensures |ls| == Min(|targetIds|, |results|)
  {
    seq(Min(|targetIds|, |results|),
        k requires 0 <= k < Min(|targetIds|, |results|) => LineText(targetIds[k], results[k]))
  }

  /** Each line followed by a line break. */
  function Terminated(ls: seq<string>): string {
    if |ls| == 0 then "" else ls[0] + "\n" + Terminated(ls[1..])
  }

  lemma {:induction false} SplitTerminated(ls: seq<string>)
    requires forall i :: 0 <= i < |ls| ==> '\n' !in ls[i]
    ensures Split(Terminated(ls), '\n') == ls + [""]
    decreases |ls|
  {
    if |ls| > 0 {
      SplitTerminated(ls[1..]);
      SplitAfter(ls[0], '\n', Terminated(ls[1..]));
      assert ls + [""] == [ls[0]] + (ls[1..] + [""]);
    }
  }

  lemma ItemsTextOneLine(items: seq<int>)
    ensures '\n' !in ItemsText(items)
  {
    var strs := seq(|items|, k requires 0 <= k < |items| => IntToString(items[k]));
    JoinAvoids(strs, " ", '\n');
  }

  lemma {:induction false} JoinAvoids(xs: seq<string>, sep: string, c: char)
    requires c !in sep
    requires forall i :: 0 <= i < |xs| ==> c !in xs[i]
    ensures c !in Join(xs, sep)
    decreases |xs|
  {
    if |xs| > 1 {
      JoinAvoids(xs[1..], sep, c);
    }
  }

  lemma TerminatedCons(x: string, ls: seq<string>)
    ensures Terminated([x] + ls) == x + "\n" + Terminated(ls)
  {
    assert ([x] + ls)[1..] == ls;
  }

  lemma {:induction false} BodyIsTerminatedLines(targetIds: seq<int>, results: seq<seq<int>>)
    ensures Body(targetIds, results) == Terminated(Lines(targetIds, results))
    decreases |targetIds|
  {
    if |targetIds| > 0 && |results| > 0 {
      BodyIsTerminatedLines(targetIds[1..], results[1..]);
      LinesCons(targetIds, results);
      TerminatedCons(LineText(targetIds[0], results[0]), Lines(targetIds[1..], results[1..]));
    } else {
      assert Lines(targetIds, results) == [];
    }
  }

  lemma LinesOneLine(targetIds: seq<int>, results: seq<seq<int>>)
    ensures forall i :: 0 <= i < |Lines(targetIds, results)| ==> '\n' !in Lines(targetIds, results)[i]
  {
    forall i | 0 <= i < |Lines(targetIds, results)| ensures '\n' !in Lines(targetIds, results)[i] {
      ItemsTextOneLine(results[i]);
    }
  }

  /** Split at its line breaks, the file is the header line, the data lines
      in the order of the ids, and the empty piece after the last break. */
  lemma CsvPieces(targetIds: seq<int>, results: seq<seq<int>>)
    ensures Split(CreateCsv(targetIds, results), '\n') == [HeaderLine] + Lines(targetIds, results) + [""]
  {
    var ls := Lines(targetIds, results);
    LinesOneLine(targetIds, results);
    BodyIsTerminatedLines(targetIds, results);
    TerminatedCons(HeaderLine, ls);
    SplitTerminated([HeaderLine] + ls);
  }

  /** The file is the header line, then exactly min(|ids|, |results|) data
      lines in the order of the ids, each the id, ", " and the items, and
      nothing after the last line break. */
  lemma CsvLines(targetIds: seq<int>, results: seq<seq<int>>)
    ensures var pieces := Split(CreateCsv(targetIds, results), '\n');
            && |pieces| == Min(|targetIds|, |results|) + 2
            && pieces[0] == HeaderLine
            && pieces[|pieces| - 1] == ""
            && forall k :: 0 <= k < Min(|targetIds|, |results|) ==>
                 pieces[k + 1] == IntToString(targetIds[k]) + ", " + ItemsText(results[k])
  {
    CsvPieces(targetIds, results);
    var ls := Lines(targetIds, results);
    Framed(HeaderLine, ls, "");
    forall k | 0 <= k < |ls| ensures ls[k] == IntToString(targetIds[k]) + ", " + ItemsText(results[k]) {
    }
  }

  /** The pieces of `[first] + middle + [last]` by position. */
  lemma Framed(first: string, middle: seq<string>, last: string)
    ensures var p := [first] + middle + [last];
            && |p| == |middle| + 2 && p[0] == first && p[|p| - 1] == last
            && forall k :: 0 <= k < |middle| ==> p[k + 1] == middle[k]
  {
  }

  /** An empty recommendation list gives the id, a comma and a space. */
  lemma EmptyItemsLine(id: int)
    ensures DataLine(id, []) == IntToString(id) + ", \n"
  {
  }

  // ---------------------------------------------------------------------
  // Reading a submission back

  /** What a submission file lists: ids and their recommendation lists. */
  datatype Rows = Rows(ids: seq<int>, itemLists: seq<seq<int>>)

  /** The items after the ", " of a data line. An empty remainder is an empty
      list (Python's `''.split(' ')` would give one empty piece). */
  function ParseItems(t: string): seq<int> {
    if t == "" then []
    else
      var pieces := Split(t, ' ');
      seq(|pieces|, k requires 0 <= k < |pieces| => ParseInt(pieces[k]))
  }

  /** A data line: the id before the first ", " and the items after it. */
  function ParseLine(line: string): Option<(int, seq<int>)> {
    match BreakAtFirst(line)
    case NotFound => None
    case Parts(before, after) => Some((ParseInt(before), ParseItems(after)))
  }

  function ParseLines(ls: seq<string>): (r: Option<Rows>)
    ensures r.Some? ==> |r.value.ids| == |ls| && |r.value.itemLists| == |ls|
  {
    if |ls| == 0 then Some(Rows([], []))
    else match (ParseLine(ls[0]), ParseLines(ls[1..]))
      case (Some((id, items)), Some(rest)) => Some(Rows([id] + rest.ids, [items] + rest.itemLists))
      case _ => None
  }

  /** A submission file: the header, data lines, and a final line break. */
  function ParseCsv(text: string): Option<Rows> {
    var pieces := Split(text, '\n');
    if |pieces| < 2 || pieces[0] != HeaderLine || pieces[|pieces| - 1] != "" then None
    else ParseLines(pieces[1..|pieces| - 1])
  }

  lemma ItemsRoundTrip(items: seq<int>)
    ensures ParseItems(ItemsText(items)) == items
  {
    var strs := seq(|items|, k requires 0 <= k < |items| => IntToString(items[k]));
    if |items| > 0 {
      assert ItemsText(items)[..|strs[0]|] == strs[0] by {
        if |strs| > 1 {
          assert Join(strs, " ") == strs[0] + (" " + Join(strs[1..], " "));
        }
      }
      assert ItemsText(items) != "";
      forall i | 0 <= i < |strs| ensures ' ' !in strs[i] { }
      SplitJoin(strs, ' ');
      forall k | 0 <= k < |items| ensures ParseInt(strs[k]) == items[k] {
        ParseIntOfIntToString(items[k]);
      }
    }
  }

  /** Splitting a data line at its first ", " and the rest at the spaces gives
      back the id and the items. */
  lemma LineRoundTrip(id: int, items: seq<int>)
    ensures ParseLine(LineText(id, items)) == Some((id, items))
  {
    BreakAtFirstOfCommaFree(IntToString(id), ItemsText(items));
    ParseIntOfIntToString(id);
    ItemsRoundTrip(items);
  }

  lemma ParseLinesCons(ls: seq<string>, id: int, items: seq<int>, rest: Rows)
    requires |ls| > 0 && ParseLine(ls[0]) == Some((id, items)) && ParseLines(ls[1..]) == Some(rest)
    ensures ParseLines(ls) == Some(Rows([id] + rest.ids, [items] + rest.itemLists))
  {
  }

  lemma LinesCons(targetIds: seq<int>, results: seq<seq<int>>)
    requires |targetIds| > 0 && |results| > 0
    ensures Lines(targetIds, results) == [LineText(targetIds[0], results[0])] + Lines(targetIds[1..], results[1..])
  {
    var ls := Lines(targetIds, results);
    assert ls[1..] == Lines(targetIds[1..], results[1..]);
  }

  lemma SlicesCons<T>(s: seq<T>, m: nat)
    requires 0 < m <= |s|
    ensures s[..m] == [s[0]] + s[1..][..m - 1]
  {
  }

  lemma {:induction false} LinesRoundTrip(targetIds: seq<int>, results: seq<seq<int>>)
    ensures ParseLines(Lines(targetIds, results))
            == Some(Rows(targetIds[..Min(|targetIds|, |results|)], results[..Min(|targetIds|, |results|)]))
    decreases |targetIds|
  {
    var m := Min(|targetIds|, |results|);
    if m > 0 {
      LinesCons(targetIds, results);
      LineRoundTrip(targetIds[0], results[0]);
      LinesRoundTrip(targetIds[1..], results[1..]);
      var rest := Rows(targetIds[1..][..m - 1], results[1..][..m - 1]);
      ParseLinesCons(Lines(targetIds, results), targetIds[0], results[0], rest);
      SlicesCons(targetIds, m);
      SlicesCons(results, m);
    } else {
      assert Lines(targetIds, results) == [];
      assert targetIds[..m] == [] && results[..m] == [];
    }
  }


  /** Reading back a written submission gives the ids and the lists that were
      written: the first min(|ids|, |results|) of each, in order, unchanged. */
  lemma CsvRoundTrip(targetIds: seq<int>, results: seq<seq<int>>)
    ensures ParseCsv(CreateCsv(targetIds, results))
            == Some(Rows(targetIds[..Min(|targetIds|, |results|)], results[..Min(|targetIds|, |results|)]))
  {
    var ls := Lines(targetIds, results);
    CsvPieces(targetIds, results);
    var pieces := [HeaderLine] + ls + [""];
    assert pieces[1..|pieces| - 1] == ls;
    LinesRoundTrip(targetIds, results);
  }
}
