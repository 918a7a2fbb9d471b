/** The filter-graph and command builder (`buildMixCommand`). Both service
    variants build the same graph: one labelled chain per track, then one
    `amix` stage over all chain outputs. The web variant hands FFmpeg the
    argument array; the native variant joins it with single spaces.

    JavaScript's number-to-string conversion of the gain is kept abstract as a
    parameter `num`; all the model uses of it is that its text never holds a
    `;` or a space. */
module FilterGraph {
  import opened Text
  import opened Tempo
  import opened Gain

  /** One track of a mix request: source reference, speed and 0..100 volume. */
  datatype MixTrack = MixTrack(uri: string, speed: real, volume: int)

  /** The values a track may carry for the builder to be defined: the tempo
      loop only ends for a positive speed, and the gain curve expects 0..100. */
  predicate ValidTrack(t: MixTrack) {
    t.speed > 0.0 && 0 <= t.volume <= MaxVolume
  }

  predicate ValidTracks(tracks: seq<MixTrack>) {
    forall i :: 0 <= i < |tracks| ==> ValidTrack(tracks[i])
  }

  /** What JavaScript prints for a number never contains these characters. */
  ghost predicate NumberText(num: real -> string) {
    forall x :: ';' !in num(x) && ' ' !in num(x)
  }

  /** The chain `[input:a]<atempo stages>,volume=<gain>[a<label>]`. */
  datatype Chain = Chain(input: nat, tempo: seq<TempoStep>, gain: real, output: nat)

  /** Per-track chains, then one amix stage reading `mixInputs` and declaring
      `inputs` streams. */
  datatype Graph = Graph(chains: seq<Chain>, mixInputs: seq<nat>, inputs: nat)

  function TrackChain(ln: real -> real, track: MixTrack, i: nat): Chain
    requires UsableLog(ln) && ValidTrack(track)
  {
    Chain(i, BuildAtempoFilter(track.speed), VolumeMultiplier(ln, track.volume), i)
  }

  // The ensures only hand the element-wise view to the verifier; they carry no property.
  function ChainLabels(chains: seq<Chain>): (labels: seq<nat>)
    ensures |labels| == |chains|
    ensures forall i :: 0 <= i < |chains| ==> labels[i] == chains[i].output
  {
    seq(|chains|, i requires 0 <= i < |chains| => chains[i].output)
  }

  predicate Distinct(s: seq<nat>) {
    forall i, j :: 0 <= i < |s| && 0 <= j < |s| && i != j ==> s[i] != s[j]
  }

  /** Every chain output label is read by the amix stage exactly once, and the
      amix stage reads nothing else. */
  predicate EachLabelMixedOnce(g: Graph) {
    && Distinct(ChainLabels(g.chains))
    && multiset(g.mixInputs) == multiset(ChainLabels(g.chains))
    && (forall i :: 0 <= i < |g.chains| ==> multiset(g.mixInputs)[g.chains[i].output] == 1)
  }

  lemma {:induction false} DistinctCountsOnce(s: seq<nat>, k: int)
    requires Distinct(s)
    requires 0 <= k < |s|
    ensures multiset(s)[s[k]] == 1
    decreases |s|
  {
    if k == 0 {
      assert s == [s[0]] + s[1..];
      assert s[0] !in s[1..];
      assert multiset(s[1..])[s[0]] == 0;
    } else {
      assert s == [s[0]] + s[1..];
      assert s[1..][k - 1] == s[k];
      DistinctCountsOnce(s[1..], k - 1);
      assert s[0] != s[k];
    }
  }

  /** The structural graph for a track list. */
  function BuildGraph(ln: real -> real, tracks: seq<MixTrack>): (g: Graph)
    requires UsableLog(ln) && ValidTracks(tracks)
    ensures |g.chains| == |tracks| && g.inputs == |tracks|
    ensures forall i :: 0 <= i < |tracks| ==>
      g.chains[i].input == i && g.chains[i].output == i
      && g.chains[i].tempo == BuildAtempoFilter(tracks[i].speed)
      && g.chains[i].gain == VolumeMultiplier(ln, tracks[i].volume)
    ensures EachLabelMixedOnce(g)
  {
    var chains := seq(|tracks|, i requires 0 <= i < |tracks| => TrackChain(ln, tracks[i], i));
    var g := Graph(chains, ChainLabels(chains), |tracks|);
    assert Distinct(ChainLabels(chains));
    forall i | 0 <= i < |chains|
      ensures multiset(g.mixInputs)[chains[i].output] == 1
    {
      DistinctCountsOnce(ChainLabels(chains), i);
    }
    g
  }

  function LabelText(n: nat): string {
    "a" + NatToString(n)
  }

  /** Distinct chains carry distinct output labels in the text as well. */
  lemma LabelTextInjective(a: nat, b: nat)
    ensures LabelText(a) == LabelText(b) ==> a == b
  {
    if LabelText(a) == LabelText(b) {
      assert NatToString(a) == LabelText(a)[1..];
      NatToStringInjective(a, b);
    }
  }

  // The ensures only hand the element-wise view to the verifier; they carry no property.
  function StepTexts(tempo: seq<TempoStep>): (texts: seq<string>)
    ensures |texts| == |tempo|
    ensures forall i :: 0 <= i < |tempo| ==> texts[i] == StepText(tempo[i])
  {
    seq(|tempo|, i requires 0 <= i < |tempo| => StepText(tempo[i]))
  }

  function TempoText(tempo: seq<TempoStep>): string {
    if |tempo| > 0 then Join(",", StepTexts(tempo)) + "," else ""
  }

  function ChainText(c: Chain, num: real -> string): string {
    "[" + NatToString(c.input) + ":a]" + TempoText(c.tempo)
    + "volume=" + num(c.gain) + "[" + LabelText(c.output) + "]"
  }

  // The ensures only hand the element-wise view to the verifier; they carry no property.
  function ChainTexts(g: Graph, num: real -> string): (texts: seq<string>)
    ensures |texts| == |g.chains|
    ensures forall i :: 0 <= i < |g.chains| ==> texts[i] == ChainText(g.chains[i], num)
  {
    seq(|g.chains|, i requires 0 <= i < |g.chains| => ChainText(g.chains[i], num))
  }

  function MixInputTexts(g: Graph): (texts: seq<string>)
    ensures |texts| == |g.mixInputs|
  {
    seq(|g.mixInputs|, i requires 0 <= i < |g.mixInputs| => "[" + LabelText(g.mixInputs[i]) + "]")
  }

  /** Each amix input text is a bracketed `a<digits>` label whose digits
      read back as the chain label it names. */
  lemma MixInputTextsReadBack(g: Graph)
    ensures var texts := MixInputTexts(g);
      forall i :: 0 <= i < |texts| ==>
        && |texts[i]| >= 4 && texts[i][..2] == "[a" && texts[i][|texts[i]| - 1] == ']'
        && ParseNat(texts[i][2..|texts[i]| - 1]) == g.mixInputs[i]
  {
    var texts := MixInputTexts(g);
    forall i | 0 <= i < |texts|
      ensures |texts[i]| >= 4 && texts[i][..2] == "[a" && texts[i][|texts[i]| - 1] == ']'
      ensures ParseNat(texts[i][2..|texts[i]| - 1]) == g.mixInputs[i]
    {
      BracketedLabelReadsBack(g.mixInputs[i], texts[i]);
    }
  }

  lemma BracketedLabelReadsBack(n: nat, t: string)
    requires t == "[" + LabelText(n) + "]"
    ensures |t| >= 4 && t[..2] == "[a" && t[|t| - 1] == ']'
    ensures ParseNat(t[2..|t| - 1]) == n
  {
    assert t == "[a" + NatToString(n) + "]";
    assert t[2..|t| - 1] == NatToString(n);
    ParseNatToString(n);
  }

  function AmixText(g: Graph): string {
    Concat(MixInputTexts(g)) + "amix=inputs=" + NatToString(g.inputs) + ":duration=longest:normalize=0[out]"
  }

  /** The `-filter_complex` argument: the chains and the amix stage joined by `;`. */
  function GraphText(g: Graph, num: real -> string): string {
    Join(";", ChainTexts(g, num) + [AmixText(g)])
  }

  lemma StepTextExcludes(t: TempoStep)
    ensures ';' !in StepText(t) && ' ' !in StepText(t)
  {
    match t
    case Fixed(h) =>
      var tail := ToFixed2(h);
      assert tail == NatToString(h / 100) + "." + [Digit(h % 100 / 10), Digit(h % 10)];
      assert forall i :: 0 <= i < |tail| ==> tail[i] == '.' || IsDigit(tail[i]);
    case Double =>
    case Half =>
  }

  lemma ChainLiteralsExclude(ch: char)
    requires ch == ';' || ch == ' '
    ensures ch !in "[" && ch !in ":a]" && ch !in "volume=" && ch !in "]" && ch !in "," && ch !in "a"
  {
    assert Plain("volume=");
    PlainExcludes("volume=", ch);
  }

  lemma TempoTextExcludes(tempo: seq<TempoStep>, ch: char)
    requires ch == ';' || ch == ' '
    ensures ch !in TempoText(tempo)
  {
    var steps := StepTexts(tempo);
    forall i | 0 <= i < |steps|
      ensures ch !in steps[i]
    {
      StepTextExcludes(tempo[i]);
    }
    ChainLiteralsExclude(ch);
    JoinExcludes(",", steps, ch);
  }

  lemma ChainTextExcludes(c: Chain, num: real -> string, ch: char)
    requires NumberText(num)
    requires ch == ';' || ch == ' '
    ensures ch !in ChainText(c, num)
  {
    TempoTextExcludes(c.tempo, ch);
    ChainLiteralsExclude(ch);
    NatToStringExcludes(c.input, ch);
    BracketedLabelExcludes(c.output, ch);
    assert ch !in num(c.gain);
  }

  lemma BracketedLabelExcludes(n: nat, ch: char)
    requires ch == ';' || ch == ' '
    ensures ch !in "[" + LabelText(n) + "]"
  {
    NatToStringExcludes(n, ch);
  }

  lemma AmixTextExcludes(g: Graph, ch: char)
    requires ch == ';' || ch == ' '
    ensures ch !in AmixText(g)
  {
    var texts := MixInputTexts(g);
    forall i | 0 <= i < |texts|
      ensures ch !in texts[i]
    {
      BracketedLabelExcludes(g.mixInputs[i], ch);
    }
    ConcatExcludes(texts, ch);
    NatToStringExcludes(g.inputs, ch);
    AmixLiteralsExclude(ch);
  }

  /** Text free of both separators the command uses. */
  predicate Plain(s: string) {
    forall i :: 0 <= i < |s| ==> s[i] != ';' && s[i] != ' '
  }

  lemma PlainExcludes(s: string, ch: char)
    requires Plain(s) && (ch == ';' || ch == ' ')
    ensures ch !in s
  {
  }

  lemma AmixLiteralsExclude(ch: char)
    requires ch == ';' || ch == ' '
    ensures ch !in "amix=inputs=" && ch !in ":duration=longest:normalize=0[out]"
  {
    assert Plain("amix=inputs=");
    PlainExcludes("amix=inputs=", ch);
    assert Plain(":duration=longest:normalize=0[out]");
    PlainExcludes(":duration=longest:normalize=0[out]", ch);
  }

  /** The graph text holds no space, so it stays one token in the native
      command line. */
  lemma GraphTextHasNoSpace(g: Graph, num: real -> string)
    requires NumberText(num)
    ensures ' ' !in GraphText(g, num)
  {
    var parts := ChainTexts(g, num) + [AmixText(g)];
    forall i | 0 <= i < |parts|
      ensures ' ' !in parts[i]
    {
      if i < |g.chains| {
        ChainTextExcludes(g.chains[i], num, ' ');
      } else {
        AmixTextExcludes(g, ' ');
      }
    }
    JoinExcludes(";", parts, ' ');
  }

  /** Cutting the graph text at `;` gives back exactly one chain per track, in
      order, followed by the single amix stage. */
  lemma GraphTextSplitsIntoChains(ln: real -> real, tracks: seq<MixTrack>, num: real -> string)
    requires UsableLog(ln) && ValidTracks(tracks) && NumberText(num)
    ensures var g := BuildGraph(ln, tracks);
      var segments := Split(GraphText(g, num), ';');
      && |segments| == |tracks| + 1
      && (forall i :: 0 <= i < |tracks| ==> segments[i] == ChainText(g.chains[i], num))
      && segments[|tracks|] == AmixText(g)
  {
    var g := BuildGraph(ln, tracks);
    var parts := ChainTexts(g, num) + [AmixText(g)];
    forall i | 0 <= i < |parts|
      ensures ';' !in parts[i]
    {
      if i < |g.chains| {
        ChainTextExcludes(g.chains[i], num, ';');
      } else {
        AmixTextExcludes(g, ';');
      }
    }
    SplitJoin(parts, ';');
  }

  /** The output-encoding arguments that follow the graph. */
  const EncodingArgs: seq<string> :=
    ["-map", "[out]", "-codec:a", "libmp3lame", "-b:a", "128k", "-ar", "44100", "-y"]

  /** A `-i <file>` pair per input, in order. */
  function InputArgs(files: seq<string>): (args: seq<string>)
    ensures |args| == 2 * |files|
    ensures forall i :: 0 <= i < |files| ==> args[2 * i] == "-i" && args[2 * i + 1] == files[i]
  {
    seq(2 * |files|, k requires 0 <= k < 2 * |files| => if k % 2 == 0 then "-i" else files[k / 2])
  }

  /** Inputs, the graph, the mapping and encoding options, then the output. */
  function MixArgs(graphText: string, inputFiles: seq<string>, outputFile: string): (cmd: seq<string>)
    ensures |cmd| == 2 * |inputFiles| + 12
    ensures forall i :: 0 <= i < |inputFiles| ==> cmd[2 * i] == "-i" && cmd[2 * i + 1] == inputFiles[i]
    ensures cmd[2 * |inputFiles|] == "-filter_complex"
    ensures cmd[2 * |inputFiles| + 1] == graphText
    ensures cmd[2 * |inputFiles| + 2..] == EncodingArgs + [outputFile]
    ensures cmd[|cmd| - 1] == outputFile
  {
    var head := InputArgs(inputFiles) + ["-filter_complex", graphText];
    assert head + EncodingArgs + [outputFile] == head + (EncodingArgs + [outputFile]);
    head + EncodingArgs + [outputFile]
  }

  /** The web variant's argument array. */
  function WebMixCommand(ln: real -> real, num: real -> string, tracks: seq<MixTrack>,
                         inputFiles: seq<string>, outputFile: string): seq<string>
    requires UsableLog(ln) && ValidTracks(tracks)
  {
    MixArgs(GraphText(BuildGraph(ln, tracks), num), inputFiles, outputFile)
  }

  /** The native variant's command line: the same arguments joined by spaces. */
  function NativeMixCommand(ln: real -> real, num: real -> string, tracks: seq<MixTrack>,
                            inputPaths: seq<string>, outputPath: string): string
    requires UsableLog(ln) && ValidTracks(tracks)
  {
    Join(" ", WebMixCommand(ln, num, tracks, inputPaths, outputPath))
  }

  lemma {:induction false} JoinSplitsOffLast(sep: string, parts: seq<string>)
    requires |parts| >= 2
    ensures Join(sep, parts) == Join(sep, parts[..|parts| - 1]) + sep + parts[|parts| - 1]
    decreases |parts|
  {
    if |parts| > 2 {
      JoinSplitsOffLast(sep, parts[1..]);
      assert parts[1..][..|parts| - 2] == parts[..|parts| - 1][1..];
    }
  }

  /** Every argument is free of spaces when the graph and the paths are. */
  lemma MixArgsHaveNoSpace(graphText: string, inputPaths: seq<string>, outputPath: string)
    requires ' ' !in graphText && ' ' !in outputPath
    requires forall i :: 0 <= i < |inputPaths| ==> ' ' !in inputPaths[i]
    ensures var args := MixArgs(graphText, inputPaths, outputPath);
      forall k :: 0 <= k < |args| ==> ' ' !in args[k]
  {
    var args := MixArgs(graphText, inputPaths, outputPath);
    var n := |inputPaths|;
    assert Plain("-i") && Plain("-filter_complex");
    PlainExcludes("-i", ' ');
    PlainExcludes("-filter_complex", ' ');
    forall k | 0 <= k < |args|
      ensures ' ' !in args[k]
    {
      if k < 2 * n {
        var i := k / 2;
        if k % 2 == 0 {
          assert k == 2 * i;
        } else {
          assert k == 2 * i + 1;
        }
      } else if k >= 2 * n + 2 {
        var j := k - 2 * n - 2;
        assert args[k] == args[2 * n + 2..][j];
        assert args[k] == (EncodingArgs + [outputPath])[j];
        if j < |EncodingArgs| {
          EncodingArgsExclude(j, ' ');
        }
      }
    }
  }

  /** No encoding argument holds a space or a semicolon. */
  lemma EncodingArgsExclude(j: nat, ch: char)
    requires j < |EncodingArgs| && (ch == ';' || ch == ' ')
    ensures ch !in EncodingArgs[j]
  {
    assert Plain("-map") && Plain("[out]") && Plain("-codec:a");
    assert Plain("libmp3lame") && Plain("-b:a") && Plain("128k");
    assert Plain("-ar") && Plain("44100") && Plain("-y");
    PlainExcludes(EncodingArgs[j], ch);
  }

  /** Joining the arguments with spaces ends the line with a space and the
      output path; when no argument holds a space, cutting the line at spaces
      gives the arguments back. */
  lemma SpaceJoinedArgs(graphText: string, inputPaths: seq<string>, outputPath: string)
    ensures var line := Join(" ", MixArgs(graphText, inputPaths, outputPath));
      |line| > |outputPath| && line[|line| - |outputPath| - 1..] == " " + outputPath
    ensures (' ' !in graphText && ' ' !in outputPath && forall i :: 0 <= i < |inputPaths| ==> ' ' !in inputPaths[i]) ==>
      Split(Join(" ", MixArgs(graphText, inputPaths, outputPath)), ' ') == MixArgs(graphText, inputPaths, outputPath)
  {
    var args := MixArgs(graphText, inputPaths, outputPath);
    JoinSplitsOffLast(" ", args);
    var front := Join(" ", args[..|args| - 1]);
    assert Join(" ", args) == front + (" " + outputPath);
    if ' ' !in graphText && ' ' !in outputPath && forall i :: 0 <= i < |inputPaths| ==> ' ' !in inputPaths[i] {
      MixArgsHaveNoSpace(graphText, inputPaths, outputPath);
      SplitJoin(args, ' ');
    }
  }

  /** The native command line ends with a space and the output path, and when no
      path contains a space, cutting it at spaces gives back exactly the web
      variant's argument array. */
  lemma NativeCommandIsSpaceJoined(ln: real -> real, num: real -> string, tracks: seq<MixTrack>,
                                   inputPaths: seq<string>, outputPath: string)
    requires UsableLog(ln) && ValidTracks(tracks) && NumberText(num)
    ensures var line := NativeMixCommand(ln, num, tracks, inputPaths, outputPath);
      |line| > |outputPath| && line[|line| - |outputPath| - 1..] == " " + outputPath
    ensures (' ' !in outputPath && forall i :: 0 <= i < |inputPaths| ==> ' ' !in inputPaths[i]) ==>
      Split(NativeMixCommand(ln, num, tracks, inputPaths, outputPath), ' ')
        == WebMixCommand(ln, num, tracks, inputPaths, outputPath)
  {
    var graphText := GraphText(BuildGraph(ln, tracks), num);
    GraphTextHasNoSpace(BuildGraph(ln, tracks), num);
    SpaceJoinedArgs(graphText, inputPaths, outputPath);
  }

  lemma Fixed124Text()
    ensures StepText(Fixed(124)) == "atempo=1.24"
  {
    assert NatToString(1) == "1";
    assert ToFixed2(124) == "1" + "." + [Digit(2), Digit(4)];
  }

  lemma Speed248TempoText()
    ensures TempoText([Double, Fixed(124)]) == "atempo=2.0,atempo=1.24,"
  {
    Fixed124Text();
    var texts := StepTexts([Double, Fixed(124)]);
    assert texts == ["atempo=2.0", "atempo=1.24"];
    assert Join(",", texts) == "atempo=2.0" + "," + Join(",", texts[1..]);
    assert texts[1..] == ["atempo=1.24"];
  }

  lemma SecondChainText(num: real -> string)
    ensures ChainText(Chain(1, [Double, Fixed(124)], 0.0, 1), num)
            == "[1:a]" + "atempo=2.0,atempo=1.24," + "volume=" + num(0.0) + "[a1]"
  {
    var x := num(0.0);
    assert "[" + NatToString(1) + ":a]" == "[1:a]";
    Speed248TempoText();
    var tag := LabelText(1);
    assert tag == "a1";
    assert "[" + tag + "]" == "[a1]";
    var pre := "[1:a]" + "atempo=2.0,atempo=1.24," + "volume=";
    ConcatRegroup(pre, x, "[", tag, "]");
  }

  lemma FirstChainText(num: real -> string)
    ensures ChainText(Chain(0, [], 1.0, 0), num) == "[0:a]" + "volume=" + num(1.0) + "[a0]"
  {
    var x := num(1.0);
    assert "[" + NatToString(0) + ":a]" == "[0:a]";
    assert TempoText([]) == "";
    var tag := LabelText(0);
    assert tag == "a0";
    assert "[" + tag + "]" == "[a0]";
    var pre := "[0:a]" + "" + "volume=";
    assert pre == "[0:a]" + "volume=";
    ConcatRegroup(pre, x, "[", tag, "]");
  }

  lemma ConcatRegroup(a: string, b: string, c: string, d: string, e: string)
    ensures a + b + c + d + e == a + b + (c + d + e)
  {
  }

  /** The scenario of a unity-speed full-volume track next to a 2.48x muted one. */
  lemma TwoTrackScenario(ln: real -> real, num: real -> string)
    requires UsableLog(ln)
    ensures var g := BuildGraph(ln, [MixTrack("a", 1.0, 100), MixTrack("b", 2.48, 0)]);
      && g.chains[0].tempo == [] && g.chains[0].gain == 1.0
      && g.chains[1].tempo == [Double, Fixed(124)] && g.chains[1].gain == 0.0
      && ChainText(g.chains[0], num) == "[0:a]" + "volume=" + num(1.0) + "[a0]"
      && ChainText(g.chains[1], num) == "[1:a]" + "atempo=2.0,atempo=1.24," + "volume=" + num(0.0) + "[a1]"
  {
    var tracks := [MixTrack("a", 1.0, 100), MixTrack("b", 2.48, 0)];
    Speed248();
    var g := BuildGraph(ln, tracks);
    assert g.chains[0] == Chain(0, [], 1.0, 0);
    assert g.chains[1] == Chain(1, [Double, Fixed(124)], 0.0, 1);
    FirstChainText(num);
    SecondChainText(num);
  }
}
