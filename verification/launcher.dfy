/** launcher.py: for every `.cfg` file of a directory, read the first line,
    and if it is a `#` comment run the command written behind it. Each file is
    handled on its own; a failure is reported and the loop goes on.

    The directory listing, the file contents and the command's return code are
    inputs: reading and running are outside the model. */
module Launcher {
  import opened Text
  import CfgGen

  /** The characters that end a line when a file is read in text mode
      (universal newlines: `\n`, `\r` and `\r\n`). */
  predicate IsNewline(c: char) {
    c == '\n' || c == '\r'
  }

  predicate NoNewline(s: string) {
    forall k :: 0 <= k < |s| ==> !IsNewline(s[k])
  }

  /** The index of the first line end at or after `k`, or the length. */
  function LineEnd(text: string, k: nat): (e: nat)
    requires k <= |text|
    requires NoNewline(text[..k])
    ensures k <= e <= |text| && NoNewline(text[..e])
    ensures e < |text| ==> IsNewline(text[e])
    decreases |text| - k
  {
    if k == |text| || IsNewline(text[k]) then k
    else
      assert text[..k + 1] == text[..k] + [text[k]];
      LineEnd(text, k + 1)
  }

  /** `file.readline()` without its line end, which the following `strip()`
      removes anyway. */
  function FirstLine(text: string): (line: string)
    ensures NoNewline(line) && |line| <= |text| && line == text[..|line|]
    ensures |line| < |text| ==> IsNewline(text[|line|])
  {
    text[..LineEnd(text, 0)]
  }

  /** The command of a config file: `first_line[2:].strip()` when the stripped
      first line starts with `#` (`startswith("#")`), None when it does not. Slicing past the end
      gives the empty text, as in Python. */
  function ExtractCommand(text: string): (r: Option<string>)
    ensures r.Some? <==> |Strip(FirstLine(text))| > 0 && Strip(FirstLine(text))[0] == '#'
    ensures r.Some? ==> Stripped(r.value) && NoNewline(r.value)
  {
    var line := Strip(FirstLine(text));
    if |line| > 0 && line[0] == '#' then
      var rest := if |line| >= 2 then line[2..] else "";
      CommandNoNewline(FirstLine(text));
      Some(Strip(rest))
    else None
  }

  /** A slice of a line holds no line end. */
  lemma SliceNoNewline(s: string, i: nat, j: nat)
    requires NoNewline(s) && i <= j <= |s|
    ensures NoNewline(s[i..j])
  {
    assert forall k :: 0 <= k < j - i ==> s[i..j][k] == s[i + k];
  }

  lemma StripNoNewline(s: string)
    requires NoNewline(s)
    ensures NoNewline(Strip(s))
  {
    StripIsSlice(s);
    SliceNoNewline(s, |s| - |TrimLeft(s)|, |s| - |TrimLeft(s)| + |Strip(s)|);
  }

  lemma CommandNoNewline(line: string)
    requires NoNewline(line)
    ensures NoNewline(Strip(if |Strip(line)| >= 2 then Strip(line)[2..] else ""))
  {
    StripNoNewline(line);
    var t := Strip(line);
    if |t| >= 2 {
      SliceNoNewline(t, 2, |t|);
      StripNoNewline(t[2..]);
    }
  }

  /** Round trip with the generators: a first line `# ` followed by a command
      with no surrounding whitespace yields exactly that command, whatever
      follows the line. */
  lemma HeaderRoundTrip(c: string, rest: string)
    requires |c| > 0 && Stripped(c) && NoNewline(c)
    requires |rest| == 0 || IsNewline(rest[0])
    ensures ExtractCommand("# " + c + rest) == Some(c)
  {
    var header := "# " + c;
    var text := header + rest;
    assert NoNewline(header);
    assert LineEnd(text, 0) == |header| by {
      LineEndAt(text, 0, |header|);
    }
    assert FirstLine(text) == header;
    StripStripped(header);
    assert header[2..] == c;
    StripStripped(c);
  }

  /** The line end after a newline-free stretch is where the stretch stops. */
  lemma {:induction false} LineEndAt(text: string, k: nat, e: nat)
    requires k <= e <= |text| && NoNewline(text[..e])
    requires e == |text| || IsNewline(text[e])
    ensures LineEnd(text, k) == e
    decreases e - k
  {
    if k < e {
      assert text[..e][k] == text[k];
      assert text[..k + 1] == text[..e][..k + 1];
      LineEndAt(text, k + 1, e);
    }
  }

  /** Exactly two characters are dropped after the `#`: a header written
      `#word...` loses the first character of its word. */
  lemma SecondCharacterDropped(w: string, rest: string)
    requires |w| > 0 && !IsSpace(w[|w| - 1]) && NoNewline(w)
    requires |rest| == 0 || IsNewline(rest[0])
    ensures ExtractCommand("#" + w + rest) == Some(Strip(w[1..]))
  {
    var header := "#" + w;
    assert header[|header| - 1] == w[|w| - 1];
    assert !IsSpace(header[0]);
    HashLine(w, rest);
    HashStripped(w);
    assert header[2..] == w[1..];
  }

  /** The first line of a `#` header followed by a line end is the header. */
  lemma HashLine(w: string, rest: string)
    requires NoNewline(w)
    requires |rest| == 0 || IsNewline(rest[0])
    ensures FirstLine("#" + w + rest) == "#" + w
  {
    var header := "#" + w;
    var text := header + rest;
    assert NoNewline(header);
    LineEndAt(text, 0, |header|);
  }

  /** A `#` header whose word ends in a non-space is already stripped. */
  lemma HashStripped(w: string)
    requires |w| > 0 && !IsSpace(w[|w| - 1])
    ensures Strip("#" + w) == "#" + w
  {
    var header := "#" + w;
    assert header[|header| - 1] == w[|w| - 1];
    StripStripped(header);
  }

  lemma JoinFirst(fields: seq<string>, c: char)
    requires |fields| >= 1 && |fields[0]| > 0
    ensures |Join(fields, c)| > 0 && Join(fields, c)[0] == fields[0][0]
  {
  }

  lemma {:induction false} JoinLast(fields: seq<string>, c: char)
    requires |fields| >= 1 && |fields[|fields| - 1]| > 0
    ensures var j := Join(fields, c);
            |j| > 0 && j[|j| - 1] == fields[|fields| - 1][|fields[|fields| - 1]| - 1]
  {
    if |fields| > 1 {
      JoinLast(fields[1..], c);
    }
  }

  /** A header `# ` + the words of a command, when the first word starts and the
      last ends with a visible character, launches that command. */
  lemma CommandLaunches(words: seq<string>, body: string)
    requires |words| >= 1 && |words[0]| > 0 && !IsSpace(words[0][0])
    requires |words[|words| - 1]| > 0 && !IsSpace(words[|words| - 1][|words[|words| - 1]| - 1])
    requires forall k :: 0 <= k < |words| ==> '\n' !in words[k] && '\r' !in words[k]
    ensures ExtractCommand("# " + Join(words, ' ') + "\n" + body) == Some(Join(words, ' '))
  {
    var cmd := Join(words, ' ');
    JoinFirst(words, ' ');
    JoinLast(words, ' ');
    JoinHasNo(words, ' ', '\n');
    JoinHasNo(words, ' ', '\r');
    assert NoNewline(cmd);
    assert "# " + cmd + "\n" + body == "# " + cmd + ("\n" + body);
    HeaderRoundTrip(cmd, "\n" + body);
  }

  /** Launching a vit config runs exactly the command the generator appended to
      `commands` for it. */
  lemma VitConfigLaunches(model: string, size: (string, nat), block: (string, nat),
                          arraySize: (string, (nat, nat)), body: string)
    requires CfgGen.CleanModel(model) && CfgGen.CleanLabel(size.0) && CfgGen.CleanLabel(block.0)
    requires CfgGen.CleanLabel(arraySize.0)
    ensures var c := CfgGen.VitConfig(model, size, block, arraySize);
            ExtractCommand(c.header + "\n" + body) == Some(CfgGen.VitCommand(c.runName, model))
  {
    var c := CfgGen.VitConfig(model, size, block, arraySize);
    var words := CfgGen.VitCommandWords(c.runName, model);
    VitWordsNoNewline(c.runName, model);
    CommandLaunches(words, body);
  }

  /** Launching a myconfigs config runs the command written in its header. */
  lemma MyConfigLaunches(model: string, size: (string, nat), sparsity: (string, (nat, nat)),
                         arraySize: (string, (nat, nat)), body: string)
    requires CfgGen.CleanModel(model) && CfgGen.CleanLabel(size.0) && CfgGen.CleanLabel(sparsity.0)
    requires CfgGen.CleanLabel(arraySize.0)
    ensures var c := CfgGen.MyConfig(model, size, sparsity, arraySize);
            ExtractCommand(c.header + "\n" + body)
            == Some(Join(CfgGen.MyCommandWords(arraySize.0, c.runName, model), ' '))
  {
    var c := CfgGen.MyConfig(model, size, sparsity, arraySize);
    var words := CfgGen.MyCommandWords(arraySize.0, c.runName, model);
    MyWordsNoNewline(arraySize.0, c.runName, model);
    CommandLaunches(words, body);
  }

  /** Command words built from fixed text and newline-free names hold no line end. */
  lemma VitWordsNoNewline(runName: string, model: string)
    requires '\n' !in runName && '\r' !in runName && '\n' !in model && '\r' !in model
    ensures var words := CfgGen.VitCommandWords(runName, model);
            forall k :: 0 <= k < |words| ==> '\n' !in words[k] && '\r' !in words[k]
  {
    var words := CfgGen.VitCommandWords(runName, model);
    ToolWordsNoNewline();
    VitPathsNoNewline();
    NoNewlineIff(runName);
    NoNewlineIff(model);
    NoNewlineConcat3("configs/vit_cfgs/", runName, ".cfg");
    NoNewlineConcat3("topologies/sparsity/", model, ".csv");
    NoNewlineConcat3("", runName, ".txt");
    assert "" + runName + ".txt" == runName + ".txt";
    forall k | 0 <= k < |words|
      ensures '\n' !in words[k] && '\r' !in words[k]
    {
      NoNewlineIff(words[k]);
    }
  }

  lemma MyWordsNoNewline(arrayLabel: string, runName: string, model: string)
    requires '\n' !in arrayLabel && '\r' !in arrayLabel && '\n' !in runName && '\r' !in runName
    requires '\n' !in model && '\r' !in model
    ensures var words := CfgGen.MyCommandWords(arrayLabel, runName, model);
            forall k :: 0 <= k < |words| ==> '\n' !in words[k] && '\r' !in words[k]
  {
    var words := CfgGen.MyCommandWords(arrayLabel, runName, model);
    ToolWordsNoNewline();
    MyPathsNoNewline();
    NoNewlineIff(arrayLabel);
    NoNewlineIff(runName);
    NoNewlineIff(model);
    NoNewlineConcat3("configs/myconfigs", arrayLabel, "/");
    NoNewlineConcat3("configs/myconfigs" + arrayLabel + "/", runName, ".cfg");
    NoNewlineConcat3("topologies/conv_nets/", model, ".csv");
    NoNewlineConcat3("", runName, ".txt");
    assert "" + runName + ".txt" == runName + ".txt";
    forall k | 0 <= k < |words|
      ensures '\n' !in words[k] && '\r' !in words[k]
    {
      NoNewlineIff(words[k]);
    }
  }

  lemma NoNewlineIff(s: string)
    ensures NoNewline(s) <==> '\n' !in s && '\r' !in s
  {
    if !NoNewline(s) {
      var k :| 0 <= k < |s| && IsNewline(s[k]);
      assert s[k] in s;
    }
  }

  lemma NoNewlineConcat3(a: string, b: string, c: string)
    requires NoNewline(a) && NoNewline(b) && NoNewline(c)
    ensures NoNewline(a + b + c)
  {
    forall k | 0 <= k < |a + b + c|
      ensures !IsNewline((a + b + c)[k])
    {
      if k < |a| {
        assert (a + b + c)[k] == a[k];
      } else if k < |a| + |b| {
        assert (a + b + c)[k] == b[k - |a|];
      } else {
        assert (a + b + c)[k] == c[k - |a| - |b|];
      }
    }
  }

  /** The program and option words of both run commands. */
  lemma ToolWordsNoNewline()
    ensures NoNewline("python3") && NoNewline("scalesim/scale.py")
    ensures NoNewline("-c") && NoNewline("-t") && NoNewline("-p") && NoNewline("-i")
    ensures NoNewline("gemm") && NoNewline(">") && NoNewline("")
  {
  }

  lemma VitPathsNoNewline()
    ensures NoNewline("configs/vit_cfgs/") && NoNewline("topologies/sparsity/")
    ensures NoNewline("sparsity_results/vit_results")
    ensures NoNewline(".cfg") && NoNewline(".csv") && NoNewline(".txt")
  {
  }

  lemma MyPathsNoNewline()
    ensures NoNewline("configs/myconfigs") && NoNewline("/") && NoNewline("topologies/conv_nets/")
    ensures NoNewline("sparsesim/sparsity_results")
    ensures NoNewline(".cfg") && NoNewline(".csv") && NoNewline(".txt")
  {
  }

  /** One directory entry: its name, its text (None where opening or reading
      raises) and the return code of its command (None where running raises). */
  datatype FileCase = FileCase(name: string, content: Option<string>, returnCode: Option<int>)

  /** What the loop reports for one entry. */
  datatype Report =
    | Skipped                            // not a `.cfg` file: nothing is printed
    | NotAComment                        // "First line of ... is not a comment."
    | Succeeded(command: string)         // return code 0
    | Failed(command: string, code: int) // "Command failed with return code ..."
    | Error                              // an exception, caught by `except Exception`

  /** The body of the `for filename in os.listdir(config_dir)` loop. */
  function Handle(f: FileCase): (r: Report)
    ensures r.Skipped? <==> !EndsWith(f.name, ".cfg")
    ensures r.NotAComment? <==> EndsWith(f.name, ".cfg") && f.content.Some?
                                && ExtractCommand(f.content.value).None?
    ensures (r.Succeeded? || r.Failed?) ==>
              f.content.Some? && ExtractCommand(f.content.value) == Some(r.command)
              && f.returnCode.Some? && (r.Succeeded? <==> f.returnCode.value == 0)
    ensures r.Failed? ==> r.code == f.returnCode.value
    ensures r.Error? <==> EndsWith(f.name, ".cfg")
                          && (f.content.None? || (ExtractCommand(f.content.value).Some? && f.returnCode.None?))
  {
    if !EndsWith(f.name, ".cfg") then Skipped
    else
      match f.content
      case None => Error
      case Some(text) =>
        match ExtractCommand(text)
        case None => NotAComment
        case Some(command) =>
          match f.returnCode
          case None => Error
          case Some(code) => if code == 0 then Succeeded(command) else Failed(command, code)
  }

  /** The whole loop: one report per entry, each decided by that entry alone,
      and no failure ends the loop early. */
  method LaunchAll(files: seq<FileCase>) returns (reports: seq<Report>)
    ensures |reports| == |files|
    ensures forall i :: 0 <= i < |files| ==> reports[i] == Handle(files[i])
  {
    reports := [];
    var i := 0;
    while i < |files|
      invariant 0 <= i <= |files|
      invariant |reports| == i
      invariant forall k :: 0 <= k < i ==> reports[k] == Handle(files[k])
    {
      reports := reports + [Handle(files[i])];
      i := i + 1;
    }
  }
}
