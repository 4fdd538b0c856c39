/** The input parser of the request handler (app.py:33-41): a text block is
    stripped, split into lines on '\n', every line is split on ',', the
    fields are converted with `float` through lazy `map` objects, the maps
    are transposed with `zip(*...)`, and the two resulting columns are
    unpacked into (quantity, value).

    `float` itself is not modelled: it is the parameter `parseNum`, which
    gives `None` where Python raises `ValueError`. Because `map` is lazy,
    `zip` converts fields round by round: round k converts field k of each
    line in order, and stops as soon as some line has no field k. The
    two-name unpack asks for two rounds and then for a third, which must
    find a line with only two fields. */
module Parsing {
  import opened Wrappers
  import Text

  /** The exceptions the parse can raise. */
  datatype ParseError =
    | NotANumber(field: string)   // float() refused this field
    | NotEnoughValues(got: nat)   // the unpack found fewer than two columns
    | TooManyValues               // the unpack found a third column

  /** Parsed observations: quantities and the observed values, index-aligned. */
  datatype Observations = Observations(q: seq<real>, v: seq<real>)

  /** The outcome of one round of `zip`: it ran out, it yielded a tuple, or
      converting a field raised. */
  datatype Round = Exhausted | Tuple(values: seq<real>) | Raised(field: string)

  /** `text.strip().split('\n')`. */
  function Lines(text: string): (lines: seq<string>)
    ensures |lines| == Text.Count(Text.Strip(text), '\n') + 1
  {
    Text.Split(Text.Strip(text), '\n')
  }

  /** `line.split(",")` for every line. */
  function Rows(text: string): (rows: seq<seq<string>>)
    ensures |rows| == |Lines(text)|
    ensures forall i :: 0 <= i < |rows| ==> rows[i] == Text.Split(Lines(text)[i], ',')
  {
    SplitLines(Lines(text))
  }

  function SplitLines(lines: seq<string>): (rows: seq<seq<string>>)
    ensures |rows| == |lines|
    ensures forall i :: 0 <= i < |rows| ==> rows[i] == Text.Split(lines[i], ',')
  {
    seq(|lines|, i requires 0 <= i < |lines| => Text.Split(lines[i], ','))
  }

  /** The first row with at most `k` fields (|rows| when there is none): the
      row whose `map` iterator ends round `k` of `zip`. */
  function FirstShort(rows: seq<seq<string>>, k: nat): (j: nat)
    ensures j <= |rows|
    ensures forall i :: 0 <= i < j ==> |rows[i]| > k
    ensures j < |rows| ==> |rows[j]| <= k
  {
    if |rows| == 0 || |rows[0]| <= k then 0 else 1 + FirstShort(rows[1..], k)
  }

  /** Field `k` of each of the first `n` rows converts. */
  predicate ColumnParses(rows: seq<seq<string>>, k: nat, n: nat, parseNum: string -> Option<real>)
    requires n <= |rows|
    requires forall i :: 0 <= i < n ==> |rows[i]| > k
  {
    forall i :: 0 <= i < n ==> parseNum(rows[i][k]).Some?
  }

  /** Pulling field `k` from each row's iterator in turn. */
  function Pull(rows: seq<seq<string>>, k: nat, parseNum: string -> Option<real>): (r: Round)
    ensures r.Tuple? ==> |r.values| == |rows|
  {
    if |rows| == 0 then Tuple([])
    else if |rows[0]| <= k then Exhausted
    else match parseNum(rows[0][k])
      case None => Raised(rows[0][k])
      case Some(x) =>
        match Pull(rows[1..], k, parseNum)
        case Tuple(xs) => Tuple([x] + xs)
        case other => other
  }

  /** Round `k` of `zip(*maps)`; with no iterators at all zip yields nothing. */
  function ZipRound(rows: seq<seq<string>>, k: nat, parseNum: string -> Option<real>): (r: Round)
    ensures |rows| == 0 ==> r.Exhausted?
    ensures r.Tuple? ==> |r.values| == |rows| > 0
  {
    if |rows| == 0 then Exhausted else Pull(rows, k, parseNum)
  }

  /** What one pull round does, stated without the recursion: it raises on
      the first row before the first short row whose field does not convert,
      runs out when there is a short row and every row before it converts,
      and otherwise yields field `k` of every row, in row order. */
  lemma {:induction false} PullSpec(rows: seq<seq<string>>, k: nat, parseNum: string -> Option<real>)
    ensures var j := FirstShort(rows, k);
            Pull(rows, k, parseNum).Exhausted? <==> (j < |rows| && ColumnParses(rows, k, j, parseNum))
    ensures var j := FirstShort(rows, k);
            Pull(rows, k, parseNum).Tuple? <==> (j == |rows| && ColumnParses(rows, k, j, parseNum))
    ensures Pull(rows, k, parseNum).Raised? ==>
              exists i :: 0 <= i < FirstShort(rows, k) && parseNum(rows[i][k]) == None
                          && Pull(rows, k, parseNum).field == rows[i][k]
                          && forall j :: 0 <= j < i ==> parseNum(rows[j][k]).Some?
    ensures Pull(rows, k, parseNum).Tuple? ==>
              var xs := Pull(rows, k, parseNum).values;
              |xs| == |rows| && forall i :: 0 <= i < |rows| ==> Some(xs[i]) == parseNum(rows[i][k])
  {
    if |rows| > 0 && |rows[0]| > k && parseNum(rows[0][k]).Some? {
      var tail := rows[1..];
      PullSpec(tail, k, parseNum);
      var j := FirstShort(rows, k);
      assert FirstShort(tail, k) == j - 1;
      assert ColumnParses(rows, k, j, parseNum) <==> ColumnParses(tail, k, j - 1, parseNum) by {
        if ColumnParses(tail, k, j - 1, parseNum) {
          forall i | 0 <= i < j ensures parseNum(rows[i][k]).Some? {
            if i > 0 { assert rows[i] == tail[i - 1]; }
          }
        }
        if ColumnParses(rows, k, j, parseNum) {
          forall i | 0 <= i < j - 1 ensures parseNum(tail[i][k]).Some? {
            assert tail[i] == rows[i + 1];
          }
        }
      }
      match Pull(tail, k, parseNum)
      case Raised(f) => {
        var i :| 0 <= i < j - 1 && parseNum(tail[i][k]) == None && f == tail[i][k]
                 && forall j' :: 0 <= j' < i ==> parseNum(tail[j'][k]).Some?;
        assert tail[i] == rows[i + 1];
        forall j' | 0 <= j' < i + 1 ensures parseNum(rows[j'][k]).Some? {
          if j' > 0 { assert rows[j'] == tail[j' - 1]; }
        }
      }
      case Tuple(xs) => {
        var ys := [parseNum(rows[0][k]).value] + xs;
        forall i | 0 <= i < |rows| ensures Some(ys[i]) == parseNum(rows[i][k]) {
          if i > 0 { assert rows[i] == tail[i - 1]; }
        }
      }
      case Exhausted =>
    }
  }

  /** `Q, V = zip(*[map(float, row) for row in rows])`. */
  function Unpack(rows: seq<seq<string>>, parseNum: string -> Option<real>): (r: Result<Observations, ParseError>)
    ensures r.Success? ==> |r.value.q| == |r.value.v| == |rows| > 0
    ensures r == Failure(TooManyValues) ==> forall i :: 0 <= i < |rows| ==> |rows[i]| >= 3
  {
    PullSpec(rows, 2, parseNum);
    match ZipRound(rows, 0, parseNum)
    case Raised(f) => Failure(NotANumber(f))
    case Exhausted => Failure(NotEnoughValues(0))
    case Tuple(qs) =>
      match ZipRound(rows, 1, parseNum)
      case Raised(f) => Failure(NotANumber(f))
      case Exhausted => Failure(NotEnoughValues(1))
      case Tuple(vs) =>
        match ZipRound(rows, 2, parseNum)
        case Raised(f) => Failure(NotANumber(f))
        case Tuple(_) => Failure(TooManyValues)
        case Exhausted => Success(Observations(qs, vs))
  }

  /** Parsing one text block (app.py:33-36 and 38-41). */
  function ParseBlock(text: string, parseNum: string -> Option<real>): (r: Result<Observations, ParseError>)
    ensures r.Success? <==> WellFormed(Rows(text), parseNum)
  {
    UnpackSpec(Rows(text), parseNum);
    Unpack(Rows(text), parseNum)
  }

  /** When the unpack succeeds: the shortest row has exactly two fields, the
      first two fields of every row convert, and so does the third field of
      every row before the first two-field row (the third round of `zip`
      converts those before it finds the two-field row). Third and later
      fields of the other rows are never looked at. */
  predicate WellFormed(rows: seq<seq<string>>, parseNum: string -> Option<real>)
  {
    && |rows| > 0
    && (forall i :: 0 <= i < |rows| ==> |rows[i]| >= 2)
    && FirstShort(rows, 2) < |rows|
    && ColumnParses(rows, 0, |rows|, parseNum)
    && ColumnParses(rows, 1, |rows|, parseNum)
    && ColumnParses(rows, 2, FirstShort(rows, 2), parseNum)
  }

  /** The unpack succeeds exactly on well-formed rows, and then yields one
      (quantity, value) pair per row, in row order: the converted first and
      second fields. */
  lemma UnpackSpec(rows: seq<seq<string>>, parseNum: string -> Option<real>)
    ensures Unpack(rows, parseNum).Success? <==> WellFormed(rows, parseNum)
    ensures Unpack(rows, parseNum).Success? ==>
              var obs := Unpack(rows, parseNum).value;
              && |obs.q| == |obs.v| == |rows|
              && (forall i :: 0 <= i < |rows| ==> Some(obs.q[i]) == parseNum(rows[i][0]))
              && (forall i :: 0 <= i < |rows| ==> Some(obs.v[i]) == parseNum(rows[i][1]))
    ensures Unpack(rows, parseNum).Failure? && Unpack(rows, parseNum).error.NotANumber? ==>
              exists i, k: nat :: 0 <= i < |rows| && k <= 2 && k < |rows[i]| && parseNum(rows[i][k]).None?
                                  && Unpack(rows, parseNum).error.field == rows[i][k]
    ensures (forall i :: 0 <= i < |rows| ==> |rows[i]| > 0) ==>
              forall i :: 0 <= i < |rows| && parseNum(rows[i][0]).None?
                          && (forall j :: 0 <= j < i ==> parseNum(rows[j][0]).Some?) ==>
                            Unpack(rows, parseNum) == Failure(NotANumber(rows[i][0]))
  {
    PullSpec(rows, 0, parseNum);
    PullSpec(rows, 1, parseNum);
    PullSpec(rows, 2, parseNum);
    if |rows| > 0 && FirstShort(rows, 0) == |rows| && FirstShort(rows, 1) == |rows| {
      assert forall i :: 0 <= i < |rows| ==> |rows[i]| >= 2;
    }
    if WellFormed(rows, parseNum) {
      assert FirstShort(rows, 0) == |rows|;
      assert FirstShort(rows, 1) == |rows|;
    }
  }

  /** A parsed block has one (quantity, value) pair per line, in line order. */
  lemma ParseBlockSpec(text: string, parseNum: string -> Option<real>)
    ensures ParseBlock(text, parseNum).Success? <==> WellFormed(Rows(text), parseNum)
    ensures ParseBlock(text, parseNum).Success? ==>
              var obs := ParseBlock(text, parseNum).value;
              var lines := Lines(text);
              && |obs.q| == |obs.v| == |lines|
              && (forall i :: 0 <= i < |lines| ==>
                    Some(obs.q[i]) == parseNum(Text.Split(lines[i], ',')[0])
                    && Some(obs.v[i]) == parseNum(Text.Split(lines[i], ',')[1]))
    ensures ParseBlock(text, parseNum).Failure? && ParseBlock(text, parseNum).error.NotANumber? ==>
              var lines := Lines(text);
              exists i, k: nat :: 0 <= i < |lines| && k <= 2 && k < |Text.Split(lines[i], ',')|
                                  && parseNum(Text.Split(lines[i], ',')[k]).None?
                                  && ParseBlock(text, parseNum).error.field == Text.Split(lines[i], ',')[k]
    ensures var lines := Lines(text);
            forall i :: 0 <= i < |lines| && parseNum(Text.Split(lines[i], ',')[0]).None?
                        && (forall j :: 0 <= j < i ==> parseNum(Text.Split(lines[j], ',')[0]).Some?) ==>
                          ParseBlock(text, parseNum) == Failure(NotANumber(Text.Split(lines[i], ',')[0]))
  {
    var lines, rows := Lines(text), Rows(text);
    UnpackSpec(rows, parseNum);
    var r := ParseBlock(text, parseNum);
    assert r == Unpack(rows, parseNum);
    if r.Failure? && r.error.NotANumber? {
      var i, k: nat :| 0 <= i < |rows| && k <= 2 && k < |rows[i]| && parseNum(rows[i][k]).None?
                       && r.error.field == rows[i][k];
      var fields := Text.Split(lines[i], ',');
      assert rows[i] == fields;
      assert 0 <= i < |lines| && k < |fields| && parseNum(fields[k]).None? && r.error.field == fields[k];
    }
    forall i | 0 <= i < |rows| ensures |rows[i]| > 0 {
      assert rows[i] == Text.Split(lines[i], ',');
    }
    forall i | 0 <= i < |lines| && parseNum(Text.Split(lines[i], ',')[0]).None?
               && (forall j :: 0 <= j < i ==> parseNum(Text.Split(lines[j], ',')[0]).Some?)
      ensures r == Failure(NotANumber(Text.Split(lines[i], ',')[0]))
    {
      assert rows[i] == Text.Split(lines[i], ',');
      forall j | 0 <= j < i ensures parseNum(rows[j][0]).Some? {
        assert rows[j] == Text.Split(lines[j], ',');
      }
    }
  }

  /** A line without a comma (in particular a blank line, or a block that is
      empty after stripping) makes the block fail, whatever `float` does. */
  lemma LineWithoutCommaFails(text: string, parseNum: string -> Option<real>, i: nat)
    requires i < |Lines(text)| && ',' !in Lines(text)[i]
    ensures ParseBlock(text, parseNum).Failure?
  {
    Text.SplitWithoutSeparator(Lines(text)[i], ',');
    UnpackSpec(Rows(text), parseNum);
  }

  /** An empty (or all-whitespace) block fails to parse. */
  lemma EmptyBlockFails(text: string, parseNum: string -> Option<real>)
    requires Text.AllSpace(text)
    ensures ParseBlock(text, parseNum).Failure?
  {
    Text.StripEmptyIffAllSpace(text);
    assert Lines(text) == [""];
    LineWithoutCommaFails(text, parseNum, 0);
  }

  /** If every line has three or more fields, the unpack always fails. */
  lemma ThreeColumnsEverywhereFails(text: string, parseNum: string -> Option<real>)
    requires forall i :: 0 <= i < |Rows(text)| ==> |Rows(text)[i]| >= 3
    ensures ParseBlock(text, parseNum).Failure?
  {
    UnpackSpec(Rows(text), parseNum);
  }
}
