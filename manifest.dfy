/**
 * Reading the image of the currently deployed release from the output of
 * `helm get manifest <release> <uninstall args...>` (getReleaseImage), and
 * the replace-or-upgrade decision built on it (HelmCmd.C2U).
 */
module Manifest {
  import opened GoStrings

  /** The substring that marks an image declaration in a manifest line. */
  const ImageMarker: string := " image: "

  /** The message of io.EOF, the error ReadBytes gives at the end of the output. */
  const EOF: string := "EOF"

  /**
   * What starting `helm get manifest` gave: an error from StdoutPipe or
   * Start, or everything the process wrote to its standard output up to the
   * end of the stream or the first read error.
   */
  datatype ManifestQuery = StartFailed(msg: string) | Stdout(text: string)

  /**
   * The outcome of getReleaseImage: the image reference, an error, or the
   * index-out-of-range panic of `strings.Split(line, "\"")[1]` on a line
   * that has no quote.
   */
  datatype ImageLookup = Image(ref: string) | LookupError(msg: string) | IndexPanic

  /** A line as ReadBytes('\n') returns it without error: one newline, at its end. */
  predicate IsLine(l: string)
  {
    |l| > 0 && l[|l| - 1] == '\n' && forall k :: 0 <= k < |l| - 1 ==> l[k] != '\n'
  }

  /** Where the line that starts at `from` ends: its newline, or the end of the output. */
  function NextNewline(text: string, from: nat): (e: nat)
    requires from <= |text|
    ensures from <= e <= |text|
    ensures forall k :: from <= k < e ==> text[k] != '\n'
    ensures e < |text| ==> text[e] == '\n'
    decreases |text| - from
  {
    if from == |text| || text[from] == '\n' then from else NextNewline(text, from + 1)
  }

  /** The newline ends where a scan for the next newline ends. */
  lemma {:induction false} NextNewlineIs(text: string, from: nat, e: nat)
    requires from <= e <= |text|
    requires forall k :: from <= k < e ==> text[k] != '\n'
    requires e < |text| ==> text[e] == '\n'
    ensures NextNewline(text, from) == e
  {
  }

  /**
   * The newline-terminated lines of `text` from position `pos` on, newline
   * included, in order. A last chunk without a newline is not among them:
   * ReadBytes returns it together with io.EOF, and getReleaseImage gives up
   * on any error.
   */
  function LinesFrom(text: string, pos: nat): seq<string>
    requires pos <= |text|
    decreases |text| - pos
  {
    var e := NextNewline(text, pos);
    if e == |text| then [] else [text[pos..e + 1]] + LinesFrom(text, e + 1)
  }

  /** The lines of the whole output. */
  function Lines(text: string): seq<string>
  {
    LinesFrom(text, 0)
  }

  /** Every line read ends with a newline, and holds no other. */
  lemma {:induction false} LinesFromAreLines(text: string, pos: nat)
    requires pos <= |text|
    ensures forall k :: 0 <= k < |LinesFrom(text, pos)| ==> IsLine(LinesFrom(text, pos)[k])
    decreases |text| - pos
  {
    var e := NextNewline(text, pos);
    if e < |text| {
      var first := text[pos..e + 1];
      var rest := LinesFrom(text, e + 1);
      LinesFromAreLines(text, e + 1);
      assert IsLine(first) by {
        assert forall k :: 0 <= k < |first| ==> first[k] == text[pos + k];
      }
      forall k | 0 <= k < |LinesFrom(text, pos)|
        ensures IsLine(LinesFrom(text, pos)[k])
      {
        if k > 0 {
          assert LinesFrom(text, pos)[k] == rest[k - 1];
        }
      }
    }
  }

  /** Every line of the output ends with a newline, and holds no other. */
  lemma {:induction false} LinesAreLines(text: string)
    ensures forall k :: 0 <= k < |Lines(text)| ==> IsLine(Lines(text)[k])
  {
    LinesFromAreLines(text, 0);
  }

  function Concat(lines: seq<string>): string
  {
    if lines == [] then [] else lines[0] + Concat(lines[1..])
  }

  lemma {:induction false} ConcatCons(line: string, lines: seq<string>)
    ensures Concat([line] + lines) == line + Concat(lines)
  {
    assert ([line] + lines)[1..] == lines;
  }

  /** A slice followed by the text found right after it is one longer slice. */
  lemma SlicesJoin(text: string, a: nat, b: nat, tail: string)
    requires a <= b && b + |tail| <= |text| && text[b..b + |tail|] == tail
    ensures a + |text[a..b] + tail| <= |text|
    ensures text[a..a + |text[a..b] + tail|] == text[a..b] + tail
  {
    assert text[a..b + |tail|] == text[a..b] + text[b..b + |tail|];
  }

  /** The lines from `pos`, put back together, are the output from `pos` on, up to some point. */
  lemma {:induction false} LinesFromPrefix(text: string, pos: nat)
    requires pos <= |text|
    ensures pos + |Concat(LinesFrom(text, pos))| <= |text|
    ensures text[pos..pos + |Concat(LinesFrom(text, pos))|] == Concat(LinesFrom(text, pos))
    decreases |text| - pos
  {
    var e := NextNewline(text, pos);
    if e < |text| {
      var first := text[pos..e + 1];
      var rest := LinesFrom(text, e + 1);
      assert LinesFrom(text, pos) == [first] + rest;
      LinesFromPrefix(text, e + 1);
      ConcatCons(first, rest);
      SlicesJoin(text, pos, e + 1, Concat(rest));
    } else {
      assert LinesFrom(text, pos) == [];
    }
  }

  /** No newline follows the lines from `pos`. */
  lemma {:induction false} LinesFromRest(text: string, pos: nat)
    requires pos <= |text|
    ensures forall k :: pos + |Concat(LinesFrom(text, pos))| <= k < |text| ==> text[k] != '\n'
    decreases |text| - pos
  {
    var e := NextNewline(text, pos);
    if e < |text| {
      var first := text[pos..e + 1];
      var rest := LinesFrom(text, e + 1);
      assert LinesFrom(text, pos) == [first] + rest;
      LinesFromRest(text, e + 1);
      ConcatCons(first, rest);
    } else {
      assert LinesFrom(text, pos) == [];
    }
  }

  /**
   * The lines, put back together, are a prefix of the output, and what
   * follows them holds no newline: nothing but an unterminated tail is lost.
   */
  lemma {:induction false} LinesCoverText(text: string)
    ensures Concat(Lines(text)) <= text
    ensures '\n' !in text[|Concat(Lines(text))|..]
  {
    LinesFromPrefix(text, 0);
    LinesFromRest(text, 0);
    var n := |Concat(Lines(text))|;
    assert forall k :: 0 <= k < |text| - n ==> text[n..][k] == text[n + k];
  }

  /** The value between the first two quotes of an image line, `strings.Split(line, "\"")[1]`. */
  function Extract(line: string): ImageLookup
  {
    var parts := Split(line, '"');
    if |parts| < 2 then IndexPanic else Image(parts[1])
  }

  /** The read loop of getReleaseImage over the lines: the first image line decides. */
  function ScanLines(lines: seq<string>): ImageLookup
  {
    if lines == [] then LookupError(EOF)
    else if Contains(lines[0], ImageMarker) then Extract(lines[0])
    else ScanLines(lines[1..])
  }

  /** getReleaseImage, given what starting the manifest query gave. */
  function ReleaseImage(q: ManifestQuery): ImageLookup
  {
    match q
    case StartFailed(msg) => LookupError(msg)
    case Stdout(text) => ScanLines(Lines(text))
  }

  /** Line `k` is the first line that declares an image. */
  predicate FirstImageLine(lines: seq<string>, k: nat)
  {
    k < |lines| && Contains(lines[k], ImageMarker)
    && forall j :: 0 <= j < k ==> !Contains(lines[j], ImageMarker)
  }

  /** Index of the first image line, or |lines| when there is none. */
  function FirstMatch(lines: seq<string>): (k: nat)
    ensures k <= |lines|
    ensures k < |lines| ==> FirstImageLine(lines, k)
    ensures k == |lines| ==> forall j :: 0 <= j < |lines| ==> !Contains(lines[j], ImageMarker)
  {
    if lines == [] then 0
    else if Contains(lines[0], ImageMarker) then 0
    else 1 + FirstMatch(lines[1..])
  }

  /** The scan returns what the first image line holds, or EOF when no line declares an image. */
  lemma {:induction false} ScanIsFirstMatch(lines: seq<string>)
    ensures ScanLines(lines) ==
      if FirstMatch(lines) == |lines| then LookupError(EOF) else Extract(lines[FirstMatch(lines)])
  {
    if lines != [] && !Contains(lines[0], ImageMarker) {
      ScanIsFirstMatch(lines[1..]);
    }
  }

  lemma {:induction false} FirstImageLineUnique(lines: seq<string>, k: nat, k': nat)
    requires FirstImageLine(lines, k) && FirstImageLine(lines, k')
    ensures k == k'
  {
  }

  /**
   * getReleaseImage yields image `x` exactly when the output has a first
   * image line and `x` is the text between its first two quotes.
   */
  lemma {:induction false} ImageFoundIff(q: ManifestQuery, x: string)
    ensures ReleaseImage(q) == Image(x) <==>
      && q.Stdout?
      && exists k: nat ::
           FirstImageLine(Lines(q.text), k)
           && |Split(Lines(q.text)[k], '"')| >= 2 && Split(Lines(q.text)[k], '"')[1] == x
  {
    if q.Stdout? {
      var lines := Lines(q.text);
      ScanIsFirstMatch(lines);
      forall k: nat | FirstImageLine(lines, k)
        ensures k == FirstMatch(lines)
      {
        if FirstMatch(lines) < |lines| {
          FirstImageLineUnique(lines, k, FirstMatch(lines));
        }
      }
    }
  }

  /**
   * getReleaseImage fails with an error exactly when the query could not be
   * started or no complete line of the output declares an image.
   */
  lemma {:induction false} LookupErrorIff(q: ManifestQuery)
    ensures ReleaseImage(q).LookupError? <==>
      q.StartFailed? || forall k :: 0 <= k < |Lines(q.text)| ==> !Contains(Lines(q.text)[k], ImageMarker)
  {
    if q.Stdout? {
      ScanIsFirstMatch(Lines(q.text));
    }
  }

  /** getReleaseImage panics exactly when the first image line has no quote. */
  lemma {:induction false} PanicIff(q: ManifestQuery)
    ensures ReleaseImage(q).IndexPanic? <==>
      q.Stdout? && (exists k: nat :: FirstImageLine(Lines(q.text), k) && '"' !in Lines(q.text)[k])
  {
    if q.Stdout? {
      var lines := Lines(q.text);
      ScanIsFirstMatch(lines);
      var m := FirstMatch(lines);
      if m < |lines| {
        var parts := Split(lines[m], '"');
        CountZero('"', lines[m]);
        forall k: nat | FirstImageLine(lines, k)
          ensures k == m
        {
          FirstImageLineUnique(lines, k, m);
        }
      }
    }
  }

  /** A found image reference never contains a quote. */
  lemma {:induction false} ImageHasNoQuote(q: ManifestQuery)
    requires ReleaseImage(q).Image?
    ensures '"' !in ReleaseImage(q).ref
  {
    ScanIsFirstMatch(Lines(q.text));
  }

  /**
   * HelmCmd.C2U after a lookup that did not panic: uninstall first exactly
   * when the deployed image equals the requested `image:tag`, with spaces
   * trimmed from both ends. Errors count as "no replace".
   */
  function ShouldReplace(lookup: ImageLookup, image: string, tag: string): bool
    requires !lookup.IndexPanic?
  {
    match lookup
    case Image(deployed) => deployed == Trim(image + ":" + tag, ' ')
    case LookupError(_) => false
  }

  /**
   * C2U is true exactly when the manifest output has a first image line whose
   * quoted value equals the trimmed `image:tag`; a query that fails to start,
   * or output with no complete image line, gives false.
   */
  lemma {:induction false} ShouldReplaceIff(q: ManifestQuery, image: string, tag: string)
    requires !ReleaseImage(q).IndexPanic?
    ensures ShouldReplace(ReleaseImage(q), image, tag) <==>
      && q.Stdout?
      && exists k: nat ::
           FirstImageLine(Lines(q.text), k)
           && |Split(Lines(q.text)[k], '"')| >= 2
           && Split(Lines(q.text)[k], '"')[1] == Trim(image + ":" + tag, ' ')
  {
    ImageFoundIff(q, Trim(image + ":" + tag, ' '));
  }

  /**
   * bufio.Reader.ReadBytes('\n') from position `pos`: the next line and the
   * position after it, or ok == false when the output ends without one.
   */
  method ReadLine(text: string, pos: nat) returns (line: string, next: nat, ok: bool)
    requires pos <= |text|
    ensures ok ==> pos < next <= |text| && line == text[pos..next]
    ensures ok ==> LinesFrom(text, pos) == [line] + LinesFrom(text, next)
    ensures !ok ==> LinesFrom(text, pos) == []
  {
    var j := pos;
    while j < |text| && text[j] != '\n'
      invariant pos <= j <= |text|
      invariant forall k :: pos <= k < j ==> text[k] != '\n'
    {
      j := j + 1;
    }
    NextNewlineIs(text, pos, j);
    if j == |text| {
      line, next, ok := [], pos, false;
    } else {
      line, next, ok := text[pos..j + 1], j + 1, true;
    }
  }

  /** getReleaseImage: read line by line until the first image line or the first read error. */
  method GetReleaseImage(q: ManifestQuery) returns (r: ImageLookup)
    ensures r == ReleaseImage(q)
  {
    match q
    case StartFailed(msg) =>
      r := LookupError(msg);
    case Stdout(text) =>
      var pos := 0;
      while true
        invariant pos <= |text|
        invariant ScanLines(LinesFrom(text, pos)) == ReleaseImage(q)
        decreases |text| - pos
      {
        var line, next, ok := ReadLine(text, pos);
        if !ok {
          return LookupError(EOF);
        }
        assert ([line] + LinesFrom(text, next))[1..] == LinesFrom(text, next);
        if Contains(line, ImageMarker) {
          var parts := Split(line, '"');
          if |parts| != 0 {
            if |parts| < 2 {
              return IndexPanic;
            }
            return Image(parts[1]);
          }
        }
        pos := next;
      }
  }
}
