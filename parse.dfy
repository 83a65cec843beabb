/** Reading the input: `parseWords` turns the file text into lines of
    words, and each line `<id> <start> <finish> <day>` becomes a record. */
module Parse {
  import opened Wrappers
  import opened Days
  import opened Text
  import opened ShipmentStore

  /** `.map(line => line.trim())`. */
  function TrimEach(lines: seq<string>): (r: seq<string>)
    ensures |r| == |lines| && forall k :: 0 <= k < |lines| ==> r[k] == Trim(lines[k])
  {
    seq(|lines|, k requires 0 <= k < |lines| => Trim(lines[k]))
  }

  /** `.map(line => line.split(' '))`. */
  function SplitEach(lines: seq<string>): (r: seq<seq<string>>)
    ensures |r| == |lines| && forall k :: 0 <= k < |lines| ==> r[k] == Split(lines[k], ' ')
  {
    seq(|lines|, k requires 0 <= k < |lines| => Split(lines[k], ' '))
  }

  /** `parseWords`: split the text into lines, trim each, drop the blank
      ones, and split what is left at single spaces. */
  function ParseWords(contents: string): seq<seq<string>>
  {
    SplitEach(NonEmpty(TrimEach(Split(contents, '\n'))))
  }

  /** Every line `parseWords` returns has a first word, and that word is
      not empty: blank lines are gone and the rest start with a non-space. */
  lemma ParseWordsLines(contents: string)
    ensures forall k :: 0 <= k < |ParseWords(contents)| ==>
      |ParseWords(contents)[k]| >= 1 && ParseWords(contents)[k][0] != ""
  {
    var trimmed := TrimEach(Split(contents, '\n'));
    var kept := NonEmpty(trimmed);
    forall k | 0 <= k < |kept| ensures Split(kept[k], ' ')[0] != "" {
      NonEmptyFrom(trimmed, k);
      var line := kept[k];
      assert line[0] != ' ';
      assert Split(line, ' ')[0] == [line[0]] + Split(line[1..], ' ')[0];
    }
  }

  /** Each line `NonEmpty` keeps from trimmed lines is itself trimmed. */
  lemma {:induction false} NonEmptyFrom(trimmed: seq<string>, k: nat)
    requires forall i :: 0 <= i < |trimmed| ==> trimmed[i] == [] || !IsSpace(trimmed[i][0])
    requires k < |NonEmpty(trimmed)|
    ensures |NonEmpty(trimmed)[k]| > 0 && !IsSpace(NonEmpty(trimmed)[k][0])
    decreases |trimmed|
  {
    var rest := NonEmpty(trimmed[1..]);
    if trimmed[0] == "" {
      NonEmptyFrom(trimmed[1..], k);
    } else if k > 0 {
      assert NonEmpty(trimmed)[k] == rest[k - 1];
      NonEmptyFrom(trimmed[1..], k - 1);
    }
  }

  /** One line of words as a record. Fewer than four words, or a fourth
      word that is no day code, makes `shipmentsByDay[s.day]` undefined and
      the `push` throw: `None`. Words past the fourth are ignored. */
  function ParseLine(words: seq<string>): (r: Option<Shipment>)
    ensures r.Some? <==> |words| >= 4 && ParseDay(words[3]).Some?
    ensures r.Some? ==> (r.value.id == words[0] && r.value.start == words[1] &&
      r.value.finish == words[2] && DayCode(r.value.day) == words[3])
  {
    if |words| < 4 then None
    else match ParseDay(words[3])
      case None => None
      case Some(d) => Some(Shipment(words[0], words[1], words[2], d))
  }

  /** The loop of `parseInputShipments` as a value: the records of all
      lines in order, or the position of the first line that throws. */
  function ParseLines(lines: seq<seq<string>>): Result<seq<Shipment>, nat>
    decreases |lines|
  {
    if lines == [] then Ok([])
    else match ParseLines(lines[..|lines| - 1])
      case Err(k) => Err(k)
      case Ok(ss) =>
        match ParseLine(lines[|lines| - 1])
        case None => Err(|lines| - 1)
        case Some(s) => Ok(ss + [s])
  }

  /** The whole input is read exactly when every line is a record; then
      the records are those of the lines, in order; otherwise the error
      names the first line that is not a record. */
  lemma {:induction false} ParseLinesSpec(lines: seq<seq<string>>)
    ensures var r := ParseLines(lines);
      && (r.Ok? <==> forall k :: 0 <= k < |lines| ==> ParseLine(lines[k]).Some?)
      && (r.Ok? ==> |r.value| == |lines| && forall k :: 0 <= k < |lines| ==> Some(r.value[k]) == ParseLine(lines[k]))
      && (r.Err? ==> (r.error < |lines| && ParseLine(lines[r.error]).None? &&
            forall k :: 0 <= k < r.error ==> ParseLine(lines[k]).Some?))
    decreases |lines|
  {
    if lines != [] {
      var init := lines[..|lines| - 1];
      ParseLinesSpec(init);
      assert forall k :: 0 <= k < |init| ==> init[k] == lines[k];
    }
  }

  /** What `parseInputShipments` reads from the file text. */
  function ParseInput(contents: string): Result<seq<Shipment>, nat>
  {
    ParseLines(ParseWords(contents))
  }

  /** The words of a record, in file order. */
  function Fields(s: Shipment): seq<string>
  {
    [s.id, s.start, s.finish, DayCode(s.day)]
  }

  /** A record as one line of the input. */
  function LineText(s: Shipment): string
  {
    Join(Fields(s), ' ')
  }

  /** The lines of records, one per record. */
  function FileLines(ss: seq<Shipment>): (r: seq<string>)
    ensures |r| == |ss| && forall k :: 0 <= k < |ss| ==> r[k] == LineText(ss[k])
  {
    seq(|ss|, k requires 0 <= k < |ss| => LineText(ss[k]))
  }

  /** Records as the input file: their lines joined with newlines. */
  function FileText(ss: seq<Shipment>): string
  {
    Join(FileLines(ss), '\n')
  }

  /** A record whose id, start and finish are single words. */
  predicate Writable(s: Shipment)
  {
    IsWord(s.id) && IsWord(s.start) && IsWord(s.finish)
  }

  /** The first character of a join is that of its first piece. */
  lemma JoinFirst(parts: seq<string>, sep: char)
    requires |parts| >= 1 && |parts[0]| > 0
    ensures var s := Join(parts, sep); |s| > 0 && s[0] == parts[0][0]
  {
  }

  /** A join of pieces without `c` has no `c`, if `c` is not the separator. */
  lemma {:induction false} JoinAvoids(parts: seq<string>, sep: char, c: char)
    requires c != sep && forall k :: 0 <= k < |parts| ==> c !in parts[k]
    ensures c !in Join(parts, sep)
    decreases |parts|
  {
    if |parts| > 1 {
      JoinAvoids(parts[1..], sep, c);
    }
  }

  lemma WordAvoids(w: string, c: char)
    requires IsWord(w) && IsSpace(c)
    ensures c !in w
  {
  }

  /** A line of a writable record has no newline, survives `trim`, is not
      blank, and splits back into its four words. */
  lemma LineRoundTrip(s: Shipment)
    requires Writable(s)
    ensures var line := LineText(s);
      && '\n' !in line && line != "" && Trim(line) == line
      && Split(line, ' ') == Fields(s)
  {
    var f := Fields(s);
    var code := DayCode(s.day);
    assert IsWord(code);
    forall k | 0 <= k < |f| ensures IsWord(f[k]) && ' ' !in f[k] && '\n' !in f[k] {
      WordAvoids(f[k], ' ');
      WordAvoids(f[k], '\n');
    }
    JoinAvoids(f, ' ', '\n');
    JoinFirst(f, ' ');
    JoinLast(f, ' ');
    TrimKeeps(LineText(s));
    SplitJoin(f, ' ');
  }

  /** Applying `Fields` to each record. */
  function FieldsEach(ss: seq<Shipment>): (r: seq<seq<string>>)
    ensures |r| == |ss| && forall k :: 0 <= k < |ss| ==> r[k] == Fields(ss[k])
  {
    seq(|ss|, k requires 0 <= k < |ss| => Fields(ss[k]))
  }

  /** `parseWords` reads back the words of records written one per line. */
  lemma ParseWordsFileText(ss: seq<Shipment>)
    requires forall k :: 0 <= k < |ss| ==> Writable(ss[k])
    ensures ParseWords(FileText(ss)) == FieldsEach(ss)
  {
    var lines := FileLines(ss);
    if ss == [] {
      EmptyFileWords();
    } else {
      FileLinesClean(ss);
      SplitJoin(lines, '\n');
      TrimEachKeeps(lines);
      NonEmptyKeeps(lines);
      SplitEachLines(ss);
    }
  }

  /** An empty file has no lines of words. */
  lemma EmptyFileWords()
    ensures ParseWords(FileText([])) == []
  {
    assert FileText([]) == "";
    assert TrimEach(Split("", '\n')) == [""];
    assert NonEmpty([""][1..]) == [];
  }

  lemma FileLinesClean(ss: seq<Shipment>)
    requires forall k :: 0 <= k < |ss| ==> Writable(ss[k])
    ensures forall k :: 0 <= k < |ss| ==> '\n' !in FileLines(ss)[k] && FileLines(ss)[k] != "" && Trim(FileLines(ss)[k]) == FileLines(ss)[k]
  {
    forall k | 0 <= k < |ss| ensures '\n' !in LineText(ss[k]) && LineText(ss[k]) != "" && Trim(LineText(ss[k])) == LineText(ss[k]) {
      LineRoundTrip(ss[k]);
    }
  }

  lemma TrimEachKeeps(lines: seq<string>)
    requires forall k :: 0 <= k < |lines| ==> Trim(lines[k]) == lines[k]
    ensures TrimEach(lines) == lines
  {
  }

  lemma SplitEachLines(ss: seq<Shipment>)
    requires forall k :: 0 <= k < |ss| ==> Writable(ss[k])
    ensures SplitEach(FileLines(ss)) == FieldsEach(ss)
  {
    forall k | 0 <= k < |ss| ensures Split(LineText(ss[k]), ' ') == Fields(ss[k]) {
      LineRoundTrip(ss[k]);
    }
  }

  /** Writing records one per line and reading them back gives the same
      records. */
  lemma ParseFileText(ss: seq<Shipment>)
    requires forall k :: 0 <= k < |ss| ==> Writable(ss[k])
    ensures ParseInput(FileText(ss)) == Ok(ss)
  {
    ParseWordsFileText(ss);
    var lines := FieldsEach(ss);
    forall k | 0 <= k < |ss| ensures ParseLine(lines[k]) == Some(ss[k]) {
      ParseDayCode(ss[k].day);
    }
    ParseLinesSpec(lines);
    var r := ParseLines(lines);
    assert r.value == ss;
  }
}
