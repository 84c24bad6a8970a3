/**
 * The line scanner of `TeamMultiplierApi` (src/tmapi.py): it finds the start
 * marker in a team-multiplier log and collects, from there on, the node key
 * and multiplier value of each "Processing node" / "Node receives" pair of
 * lines. The two regular expressions and `float()` are given as functions
 * on a line; only the index and scanning logic is modelled.
 */
module TeamMultiplier {
  import opened Wrappers

  /** The literal the start marker search looks for. */
  const StartMarker: string := "Adjusting multiplier values"

  /** `pat` occurs somewhere in `line`. */
  predicate Contains(line: string, pat: string)
    decreases |line|
  {
    |pat| <= |line| && (line[..|pat|] == pat || Contains(line[1..], pat))
  }

  /**
   * What the regular expressions and `float()` make of a line: the node key
   * of a "---- Processing node <key> ----" line, the text after
   * "Node receives" up to the first comma, and the number a text spells.
   */
  datatype LineParser = LineParser(
    nodeKey: string -> Option<string>,
    receivesText: string -> Option<string>,
    toFloat: string -> Option<real>)

  /** Why scanning a log aborts. */
  datatype ParseError =
    | NoReceivesLine(key: string, index: nat)  // the line after node line `index` has no "Node receives"
    | NotANumber(key: string, text: string)    // `float()` rejects the text after "Node receives"

  /** What `find_next` returns: a node entry and the index to resume at, or nothing more. */
  datatype Next = Found(key: string, value: real, next: nat) | Exhausted

  /** A node key with its multiplier, as the log lists them. */
  datatype Entry = Entry(key: string, value: real)

  /** The first line at or after `i` that contains the start marker, plus one. */
  function FindStartFrom(lines: seq<string>, i: nat): (r: Option<nat>)
    requires i <= |lines|
    ensures r.Some? ==>
      && i + 1 <= r.value <= |lines| && Contains(lines[r.value - 1], StartMarker)
      && forall j :: i <= j < r.value - 1 ==> !Contains(lines[j], StartMarker)
    ensures r.None? <==> forall j :: i <= j < |lines| ==> !Contains(lines[j], StartMarker)
    decreases |lines| - i
  {
    if i == |lines| then None
    else if Contains(lines[i], StartMarker) then Some(i + 1)
    else FindStartFrom(lines, i + 1)
  }

  /**
   * `find_start_index`: one past the first line containing the start
   * marker, or None when no line does.
   */
  function FindStartIndex(lines: seq<string>): (r: Option<nat>)
    ensures r.Some? ==>
      && 1 <= r.value <= |lines| && Contains(lines[r.value - 1], StartMarker)
      && forall j :: 0 <= j < r.value - 1 ==> !Contains(lines[j], StartMarker)
    ensures r.None? <==> forall j :: 0 <= j < |lines| ==> !Contains(lines[j], StartMarker)
  {
    FindStartFrom(lines, 0)
  }

  /**
   * `find_next`: scans the indices `k` to `|lines| - 2` for the first node
   * line and reads the multiplier from the line after it.
   */
  function FindNext(lines: seq<string>, k: nat, p: LineParser): (r: Result<Next, ParseError>)
    ensures r.Success? && r.value.Found? ==>
      && k + 2 <= r.value.next <= |lines|
      && p.nodeKey(lines[r.value.next - 2]) == Some(r.value.key)
      && (forall j :: k <= j < r.value.next - 2 ==> p.nodeKey(lines[j]).None?)
      && p.receivesText(lines[r.value.next - 1]).Some?
      && p.toFloat(p.receivesText(lines[r.value.next - 1]).value) == Some(r.value.value)
    ensures r == Success(Exhausted) <==> forall j :: k <= j < |lines| - 1 ==> p.nodeKey(lines[j]).None?
    decreases |lines| - k
  {
    if k + 1 >= |lines| then Success(Exhausted)
    else match p.nodeKey(lines[k])
      case None => FindNext(lines, k + 1, p)
      case Some(key) =>
        match p.receivesText(lines[k + 1])
        case None => Failure(NoReceivesLine(key, k))
        case Some(text) =>
          match p.toFloat(text)
          case None => Failure(NotANumber(key, text))
          case Some(value) => Success(Found(key, value, k + 2))
  }

  /**
   * Line `i` is the first node line from `k` on, and the line after it
   * yields error `e` instead of a multiplier.
   */
  ghost predicate FirstNodeFails(lines: seq<string>, k: nat, i: nat, p: LineParser, e: ParseError)
    requires k <= i < |lines| - 1
  {
    && (forall j :: k <= j < i ==> p.nodeKey(lines[j]).None?)
    && p.nodeKey(lines[i]).Some?
    && var key := p.nodeKey(lines[i]).value;
       match p.receivesText(lines[i + 1])
       case None => e == NoReceivesLine(key, i)
       case Some(text) => p.toFloat(text).None? && e == NotANumber(key, text)
  }

  /** The entries `find_next` yields one after another from index `k` on, or the error that stops it. */
  function Entries(lines: seq<string>, k: nat, p: LineParser): Result<seq<Entry>, ParseError>
    decreases |lines| - k
  {
    match FindNext(lines, k, p)
    case Failure(e) => Failure(e)
    case Success(Exhausted) => Success([])
    case Success(Found(key, value, next)) =>
      match Entries(lines, next, p)
      case Failure(e) => Failure(e)
      case Success(rest) => Success([Entry(key, value)] + rest)
  }

  /** Stores the entries into `acc` in order, so that a later key overwrites an earlier one. */
  function Overwrite(acc: map<string, real>, entries: seq<Entry>): map<string, real>
    decreases |entries|
  {
    if entries == [] then acc
    else Overwrite(acc[entries[0].key := entries[0].value], entries[1..])
  }

  /** The map `current_tm_values` returns, over the lines of the log. */
  function TmValues(lines: seq<string>, p: LineParser): Result<map<string, real>, ParseError>
  {
    match FindStartIndex(lines)
    case None => Success(map[])
    case Some(start) => Finish(map[], Entries(lines, start, p))
  }

  /** The entries still to come stored into `acc`, or the error they end with. */
  function Finish(acc: map<string, real>, rest: Result<seq<Entry>, ParseError>): Result<map<string, real>, ParseError>
  {
    match rest
    case Failure(e) => Failure(e)
    case Success(entries) => Success(Overwrite(acc, entries))
  }

  /**
   * `current_tm_values`, with the log given as its lines: an empty map
   * without a start marker, otherwise the values of the entries after it.
   */
  method CurrentTmValues(lines: seq<string>, p: LineParser) returns (r: Result<map<string, real>, ParseError>)
    ensures r == TmValues(lines, p)
    ensures FindStartIndex(lines).None? ==> r == Success(map[])
  {
    var start := FindStartIndex(lines);
    if start.None? {
      return Success(map[]);
    }
    var tm: map<string, real> := map[];
    var index := start.value;
    var next := FindNext(lines, index, p);
    while next.Success? && next.value.Found?
      invariant next == FindNext(lines, index, p)
      invariant Finish(tm, Entries(lines, index, p)) == TmValues(lines, p)
      decreases |lines| - index
    {
      tm := tm[next.value.key := next.value.value];
      index := next.value.next;
      next := FindNext(lines, index, p);
    }
    if next.Failure? {
      return Failure(next.error);
    }
    return Success(tm);
  }

  /** Every key of the result comes from `acc` or from an entry, and each entry key is present. */
  lemma {:induction false} OverwriteKeys(acc: map<string, real>, entries: seq<Entry>)
    ensures Overwrite(acc, entries).Keys == acc.Keys + (set i | 0 <= i < |entries| :: entries[i].key)
    decreases |entries|
  {
    if entries != [] {
      var e := entries[0];
      OverwriteKeys(acc[e.key := e.value], entries[1..]);
      var rest := set i | 0 <= i < |entries[1..]| :: entries[1..][i].key;
      var all := set i | 0 <= i < |entries| :: entries[i].key;
      assert all == {e.key} + rest by {
        forall x | x in all ensures x in {e.key} + rest {
          var i :| 0 <= i < |entries| && entries[i].key == x;
          if i > 0 {
            assert entries[1..][i - 1].key == x;
          }
        }
        forall x | x in rest ensures x in all {
          var i :| 0 <= i < |entries[1..]| && entries[1..][i].key == x;
          assert entries[i + 1].key == x;
        }
      }
    }
  }

  /** The last entry of a key decides its value. */
  lemma {:induction false} OverwriteLastWins(acc: map<string, real>, entries: seq<Entry>, i: nat)
    requires i < |entries|
    requires forall j :: i < j < |entries| ==> entries[j].key != entries[i].key
    ensures entries[i].key in Overwrite(acc, entries)
    ensures Overwrite(acc, entries)[entries[i].key] == entries[i].value
    decreases |entries|
  {
    var e := entries[0];
    var tail := entries[1..];
    if i == 0 {
      forall j | 0 <= j < |tail| ensures tail[j].key != e.key {
        assert tail[j] == entries[j + 1];
      }
      OverwriteKeeps(acc[e.key := e.value], tail, e.key);
    } else {
      forall j | i - 1 < j < |tail| ensures tail[j].key != tail[i - 1].key {
        assert tail[j] == entries[j + 1];
      }
      OverwriteLastWins(acc[e.key := e.value], tail, i - 1);
    }
  }

  /** A key no entry names keeps the value it has in `acc`. */
  lemma {:induction false} OverwriteKeeps(acc: map<string, real>, entries: seq<Entry>, key: string)
    requires key in acc
    requires forall j :: 0 <= j < |entries| ==> entries[j].key != key
    ensures key in Overwrite(acc, entries) && Overwrite(acc, entries)[key] == acc[key]
    decreases |entries|
  {
    if entries != [] {
      var tail := entries[1..];
      forall j | 0 <= j < |tail| ensures tail[j].key != key {
        assert tail[j] == entries[j + 1];
      }
      OverwriteKeeps(acc[entries[0].key := entries[0].value], tail, key);
    }
  }

  /** A failing `find_next` fails at the first node line: that line's successor has no usable multiplier. */
  lemma {:induction false} FindNextFailure(lines: seq<string>, k: nat, p: LineParser)
    requires FindNext(lines, k, p).Failure?
    ensures exists i :: k <= i < |lines| - 1 && FirstNodeFails(lines, k, i, p, FindNext(lines, k, p).error)
    decreases |lines| - k
  {
    if p.nodeKey(lines[k]).None? {
      FindNextFailure(lines, k + 1, p);
      var i :| k + 1 <= i < |lines| - 1 && FirstNodeFails(lines, k + 1, i, p, FindNext(lines, k, p).error);
      assert FirstNodeFails(lines, k, i, p, FindNext(lines, k, p).error);
    } else {
      assert FirstNodeFails(lines, k, k, p, FindNext(lines, k, p).error);
    }
  }

  /** Conversely, a first node line without a usable multiplier makes `find_next` fail with its error. */
  lemma {:induction false} FirstNodeFailureRaises(lines: seq<string>, k: nat, i: nat, p: LineParser, e: ParseError)
    requires k <= i < |lines| - 1 && FirstNodeFails(lines, k, i, p, e)
    ensures FindNext(lines, k, p) == Failure(e)
    decreases i - k
  {
    if k < i {
      assert p.nodeKey(lines[k]).None?;
      FirstNodeFailureRaises(lines, k + 1, i, p, e);
    }
  }

  /**
   * A log that scans without error yields exactly the keys of its entries,
   * each with the value of its last entry.
   */
  lemma TmValuesContents(lines: seq<string>, p: LineParser)
    requires FindStartIndex(lines).Some?
    requires Entries(lines, FindStartIndex(lines).value, p).Success?
    ensures var entries := Entries(lines, FindStartIndex(lines).value, p).value;
      && TmValues(lines, p).Success?
      && TmValues(lines, p).value.Keys == (set i | 0 <= i < |entries| :: entries[i].key)
      && forall i :: 0 <= i < |entries| && (forall j :: i < j < |entries| ==> entries[j].key != entries[i].key) ==>
           TmValues(lines, p).value[entries[i].key] == entries[i].value
  {
    var entries := Entries(lines, FindStartIndex(lines).value, p).value;
    OverwriteKeys(map[], entries);
    forall i | 0 <= i < |entries| && (forall j :: i < j < |entries| ==> entries[j].key != entries[i].key)
      ensures TmValues(lines, p).value[entries[i].key] == entries[i].value
    {
      OverwriteLastWins(map[], entries, i);
    }
  }
}
