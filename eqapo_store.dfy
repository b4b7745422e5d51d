/**
 * `EqApoConfig`: the object that owns the profile list and the preamp state,
 * fills them from config.txt and writes them back.
 *
 * The file system is not modelled; each operation is given what the file
 * system would answer. Reading config.txt yields a `ConfigFile`; an open
 * that is retried is a function from the attempt number to whether that
 * attempt succeeds; a write or a close either succeeds or fails. What an
 * operation writes is returned as the text it writes.
 */
module EqApoStore {
  import opened Text
  import opened EqApoFormat

  /** `tryOpenFile` gives up after this many attempts. */
  const MaxOpenAttempts: nat := 5

  /** `_configFolder`, the folder Equalizer APO reads its configuration from. */
  const DefaultConfigFolder: string := "C:/Program Files/EqualizerAPO/config"

  function ConfigFilePath(folder: string): string {
    folder + "/config.txt"
  }

  /**
   * What reading config.txt produces: the file cannot be opened, or it is
   * opened and holds `text` (what was read before any read error), after
   * which the stream may report a read error and the close may fail.
   */
  datatype ConfigFile =
    | Unopenable
    | Readable(text: string, readFails: bool, closeFails: bool)

  /**
   * The state and status a reload ends with. The state is cleared first, so
   * a file that cannot be opened leaves no profiles and the default preamp;
   * a bad line ends the reload with what was read before it; read and close
   * errors are reported only once every line has been accepted.
   */
  function ReloadOutcome(folder: string, file: ConfigFile, pg: GainParser): (r: Loaded)
    ensures file.Unopenable? ==> r.config == EmptyConfig && r.status.Failure?
    ensures file.Readable? ==> r.config == Parse(SplitLines(file.text), pg).config
    ensures r.status.Success? <==>
              file.Readable? && Parse(SplitLines(file.text), pg).status.Success? && !file.readFails && !file.closeFails
    ensures file.Readable? && Parse(SplitLines(file.text), pg).status.Failure? ==>
              r.status == Parse(SplitLines(file.text), pg).status
  {
    match file
    case Unopenable => Loaded(EmptyConfig, Failure(OpenForReadingFailed(ConfigFilePath(folder))))
    case Readable(text, readFails, closeFails) =>
      var r := Parse(SplitLines(text), pg);
      if r.status.Failure? then r
      else if readFails then Loaded(r.config, Failure(ReadFailed))
      else if closeFails then Loaded(r.config, Failure(CloseAfterReadingFailed))
      else r
  }

  /** Whether one of the attempts `tryOpenFile` makes succeeds. */
  ghost predicate OpensWithin(openSucceeds: nat -> bool) {
    exists k :: 0 <= k < MaxOpenAttempts && openSucceeds(k)
  }

  /**
   * `tryOpenFile`: try to open, up to `MaxOpenAttempts` times, stopping at the
   * first success. `attempts` is how many opens were tried.
   */
  method TryOpenFile(openSucceeds: nat -> bool) returns (isOpen: bool, attempts: nat)
    ensures 1 <= attempts <= MaxOpenAttempts
    ensures isOpen <==> OpensWithin(openSucceeds)
    ensures isOpen ==> openSucceeds(attempts - 1)
    ensures forall k :: 0 <= k < attempts - 1 ==> !openSucceeds(k)
    ensures !isOpen ==> attempts == MaxOpenAttempts
  {
    var attempt: nat := 0;
    while attempt < MaxOpenAttempts
      invariant attempt <= MaxOpenAttempts
      invariant forall k :: 0 <= k < attempt ==> !openSucceeds(k)
    {
      if openSucceeds(attempt) {
        return true, attempt + 1;
      }
      attempt := attempt + 1;
    }
    return false, MaxOpenAttempts;
  }

  /** The name `createNewProfile` gives the profile file: `name`, with `.txt` added unless it already ends so, in any case. */
  function NormalizeFileName(name: string): (r: string)
    ensures EndsWithCI(r, ".txt")
    ensures EndsWithCI(name, ".txt") ==> r == name
    ensures !EndsWithCI(name, ".txt") ==> r == name + ".txt"
  {
    if EndsWithCI(name, ".txt") then name
    else
      assert (name + ".txt")[|name|..] == ".txt";
      name + ".txt"
  }

  /** Normalising a file name twice is normalising it once. */
  lemma NormalizeIdempotent(name: string)
    ensures NormalizeFileName(NormalizeFileName(name)) == NormalizeFileName(name)
  {
  }

  /** A trimmed name gives a trimmed file name. */
  lemma NormalizeTrimmed(name: string)
    requires Trimmed(name)
    ensures Trimmed(NormalizeFileName(name))
  {
    var r := NormalizeFileName(name);
    if r != name {
      assert r[|r| - 1] == 't';
      assert name == [] ==> r[0] == '.';
      assert name != [] ==> r[0] == name[0];
    }
  }

  /** Whether a profile of `ps` is named `fileName`, in any case. */
  predicate HasInclude(ps: seq<EqProfile>, fileName: string) {
    exists k :: 0 <= k < |ps| && EqualsCI(ps[k].name, fileName)
  }

  /** The line `createNewProfile` appends to config.txt for a new profile file: a disabled include. */
  function NewIncludeLine(fileName: string): string {
    IncludeText(EqProfile(fileName, false))
  }

  /**
   * What `createNewProfile` appends to config.txt once it is open, as the
   * source decides it: the loaded profiles are compared with `name` as the
   * caller typed it, not with the file name that is included.
   */
  function AppendedLinesAsWritten(ps: seq<EqProfile>, name: string): seq<string> {
    if HasInclude(ps, name) then [] else [NewIncludeLine(NormalizeFileName(name))]
  }

  /** What `createNewProfile` evidently means to append: nothing when the file it includes is already included. */
  function AppendedLines(ps: seq<EqProfile>, name: string): seq<string> {
    if HasInclude(ps, NormalizeFileName(name)) then [] else [NewIncludeLine(NormalizeFileName(name))]
  }

  lemma EqualsCIReflexive(s: string)
    ensures EqualsCI(s, s)
  {
  }

  /** Whether a file is included does not depend on the case the name is written in. */
  lemma HasIncludeCI(ps: seq<EqProfile>, a: string, b: string)
    requires EqualsCI(a, b)
    ensures HasInclude(ps, a) <==> HasInclude(ps, b)
  {
    EqualsCILowered(a, b);
    forall k | 0 <= k < |ps| ensures EqualsCI(ps[k].name, a) <==> EqualsCI(ps[k].name, b) {
      EqualsCILowered(ps[k].name, a);
      EqualsCILowered(ps[k].name, b);
    }
  }

  /** The appended line reads back as a disabled include of the file, its name trimmed. */
  lemma NewIncludeLineReadBack(fileName: string)
    ensures Classify(NewIncludeLine(fileName)) == IncludeDirective(EqProfile(Trim(fileName), false))
  {
    ClassifyIncludeText(EqProfile(fileName, false));
  }

  /**
   * The check the source makes looks for the name as typed: when no profile
   * has that name, it appends the include line, even when the file it
   * names is already included, and the corrected check would append nothing.
   */
  lemma AsWrittenIgnoresIncluded(ps: seq<EqProfile>, name: string)
    requires !HasInclude(ps, name) && HasInclude(ps, NormalizeFileName(name))
    ensures AppendedLinesAsWritten(ps, name) == [NewIncludeLine(NormalizeFileName(name))]
    ensures AppendedLines(ps, name) == []
  {
  }

  /** An appended include line reads back as one more disabled profile, after those already there. */
  lemma AppendedIncludeReadBack(lines: seq<string>, c: Config, fileName: string, pg: GainParser)
    requires Parse(lines, pg) == Loaded(c, Success(()))
    requires Trimmed(fileName)
    ensures Parse(lines + [NewIncludeLine(fileName)], pg)
         == Loaded(c.(profiles := c.profiles + [EqProfile(fileName, false)]), Success(()))
  {
    var p := EqProfile(fileName, false);
    var tail := [NewIncludeLine(fileName)];
    assert tail == ProfileLines([p]);
    assert TrimNames([p]) == [p] by {
      TrimNamesFixed([p]);
    }
    ParseFromConcat(EmptyConfig, lines, tail, pg);
    ParseProfileLines(c, [p], pg);
  }

  /** The file `createNewProfile("X")` includes. */
  lemma NormalizeX()
    ensures NormalizeFileName("X") == "X.txt"
  {
    assert !EndsWithCI("X", ".txt");
  }

  /**
   * The first creation of `X` in an empty config.txt appends its include,
   * and the reload lists it.
   * The lines are parameters fixed by `requires`, so that the verifier does
   * not evaluate them eagerly.
   */
  lemma CreateXOnce(once: seq<string>, pg: GainParser)
    requires once == AppendedLinesAsWritten(Parse([], pg).config.profiles, "X")
    ensures once == [NewIncludeLine("X.txt")]
    ensures Parse(once, pg) == Loaded(Config([EqProfile("X.txt", false)], DefaultPreamp), Success(()))
  {
    NormalizeX();
    assert Parse([], pg) == Loaded(EmptyConfig, Success(()));
    AppendedIncludeReadBack([], EmptyConfig, "X.txt", pg);
    assert [] + once == once;
  }

  /**
   * The loaded `X.txt` is not `X`, so the check the source makes misses it
   * and the include is appended again.
   * The lines are parameters fixed by `requires`, so that the verifier does
   * not evaluate them eagerly.
   */
  lemma CreateXAgain(c1: Config, once: seq<string>, twice: seq<string>, pg: GainParser)
    requires Parse(once, pg) == Loaded(c1, Success(())) && c1.profiles == [EqProfile("X.txt", false)]
    requires twice == AppendedLinesAsWritten(c1.profiles, "X")
    ensures twice == [NewIncludeLine("X.txt")]
    ensures Parse(once + twice, pg).config.profiles == [EqProfile("X.txt", false), EqProfile("X.txt", false)]
  {
    NormalizeX();
    assert !EqualsCI(c1.profiles[0].name, "X");
    assert !HasInclude(c1.profiles, "X");
    AppendedIncludeReadBack(once, c1, "X.txt", pg);
  }

  /**
   * With the source's check, creating profile `X` twice in a config.txt that
   * starts empty, reloading in between as the main window does, appends
   * `#Include: X.txt` twice, and the next reload lists the profile twice.
   */
  lemma CreateTwiceAppendsTwiceAsWritten(pg: GainParser)
    ensures var once := AppendedLinesAsWritten(Parse([], pg).config.profiles, "X");
            var twice := AppendedLinesAsWritten(Parse(once, pg).config.profiles, "X");
            once == twice == [NewIncludeLine("X.txt")] &&
            Parse(once + twice, pg).config.profiles == [EqProfile("X.txt", false), EqProfile("X.txt", false)]
  {
    var once := AppendedLinesAsWritten(Parse([], pg).config.profiles, "X");
    var twice := AppendedLinesAsWritten(Parse(once, pg).config.profiles, "X");
    CreateXOnce(once, pg);
    CreateXAgain(Parse(once, pg).config, once, twice, pg);
  }

  /** When the file is already included, the corrected check appends nothing, and nothing changes. */
  lemma CreateAgainNothingAppended(lines: seq<string>, c: Config, name: string, pg: GainParser)
    requires Parse(lines, pg) == Loaded(c, Success(()))
    requires AppendedLines(c.profiles, name) == []
    ensures Parse(lines + AppendedLines(c.profiles, name), pg) == Loaded(c, Success(()))
    ensures HasInclude(c.profiles, NormalizeFileName(name))
  {
    assert lines + [] == lines;
  }

  /** When it is not, the reload that follows finds one more profile: a disabled include of the file. */
  lemma CreateAgainFindsAppended(lines: seq<string>, c: Config, name: string, pg: GainParser)
    requires Parse(lines, pg) == Loaded(c, Success(()))
    requires Trimmed(name)
    requires AppendedLines(c.profiles, name) != []
    ensures Parse(lines + AppendedLines(c.profiles, name), pg)
         == Loaded(c.(profiles := c.profiles + [EqProfile(NormalizeFileName(name), false)]), Success(()))
    ensures HasInclude(c.profiles + [EqProfile(NormalizeFileName(name), false)], NormalizeFileName(name))
  {
    var fileName := NormalizeFileName(name);
    NormalizeTrimmed(name);
    AppendedIncludeReadBack(lines, c, fileName, pg);
    var ps := c.profiles + [EqProfile(fileName, false)];
    assert ps[|ps| - 1].name == fileName;
    EqualsCIReflexive(fileName);
  }

  /**
   * With the corrected check, the reload that follows `createNewProfile`
   * succeeds, keeps the profiles and the preamp it had, adds at most the
   * new disabled include, and includes the file.
   */
  lemma AppendedLinesIncluded(lines: seq<string>, c: Config, name: string, pg: GainParser)
    requires Parse(lines, pg) == Loaded(c, Success(()))
    requires Trimmed(name)
    ensures var r := Parse(lines + AppendedLines(c.profiles, name), pg);
            r.status == Success(()) && r.config.preamp == c.preamp &&
            c.profiles <= r.config.profiles && |r.config.profiles| <= |c.profiles| + 1 &&
            HasInclude(r.config.profiles, NormalizeFileName(name))
  {
    if AppendedLines(c.profiles, name) == [] {
      CreateAgainNothingAppended(lines, c, name, pg);
    } else {
      CreateAgainFindsAppended(lines, c, name, pg);
    }
  }

  /**
   * With the corrected check, a profile whose include line was appended is
   * found after the reload that follows, so creating it again appends
   * nothing, and the reload still succeeds.
   */
  lemma CreateTwiceAppendsOnce(lines: seq<string>, c: Config, name: string, pg: GainParser)
    requires Parse(lines, pg) == Loaded(c, Success(()))
    requires Trimmed(name)
    ensures Parse(lines + AppendedLines(c.profiles, name), pg).status == Success(())
    ensures AppendedLines(Parse(lines + AppendedLines(c.profiles, name), pg).config.profiles, name) == []
  {
    AppendedLinesIncluded(lines, c, name, pg);
  }

  /** A name without a newline gives an appended line without one. */
  lemma AppendedLinesNoLineBreak(ps: seq<EqProfile>, name: string)
    requires NoLineBreak(name)
    ensures forall i :: 0 <= i < |AppendedLines(ps, name)| ==> '\n' !in AppendedLines(ps, name)[i]
  {
    var fileName := NormalizeFileName(name);
    assert fileName == name || fileName == name + ".txt";
    assert '\n' !in fileName;
    assert '\n' !in NewIncludeLine(fileName);
  }

  /**
   * The same on the text of config.txt, as `createNewProfile` appends to it
   * and the reload that follows reads it: after a reload of `text` without
   * error, the corrected check appends text whose reload succeeds, keeps
   * the profiles and the preamp read before, adds at most the new disabled
   * include, includes the file, and makes a second creation append nothing.
   * The file must end with a newline (as every save leaves it) and the name
   * must hold none.
   */
  lemma AppendedTextIncluded(folder: string, text: string, c: Config, name: string, pg: GainParser)
    requires ReloadOutcome(folder, Readable(text, false, false), pg) == Loaded(c, Success(()))
    requires text == [] || text[|text| - 1] == '\n'
    requires Trimmed(name) && NoLineBreak(name)
    ensures var r := ReloadOutcome(folder, Readable(text + JoinLines(AppendedLines(c.profiles, name)), false, false), pg);
            r.status == Success(()) && r.config.preamp == c.preamp &&
            c.profiles <= r.config.profiles && |r.config.profiles| <= |c.profiles| + 1 &&
            HasInclude(r.config.profiles, NormalizeFileName(name)) &&
            AppendedLines(r.config.profiles, name) == []
  {
    var lines := SplitLines(text);
    var added := AppendedLines(c.profiles, name);
    assert Parse(lines, pg) == Loaded(c, Success(()));
    AppendedLinesNoLineBreak(c.profiles, name);
    SplitAppended(text, added);
    AppendedLinesIncluded(lines, c, name, pg);
    CreateTwiceAppendsOnce(lines, c, name, pg);
  }

  class EqApoConfig {
    const configFolder: string := DefaultConfigFolder
    var profiles: seq<EqProfile>
    var preampState: PreampState

    /** A new object holds no profiles and the default preamp, until the first reload. */
    constructor()
      ensures profiles == [] && preampState == DefaultPreamp
    {
      profiles := [];
      preampState := DefaultPreamp;
    }

    function ConfigFolder(): (r: string)
      reads this
      ensures r == DefaultConfigFolder
    {
      configFolder
    }

    function Profiles(): (r: seq<EqProfile>)
      reads this
      ensures r == profiles
    {
      profiles
    }

    function Preamp(): (r: PreampState)
      reads this
      ensures r == preampState
    {
      preampState
    }

    /**
     * `reloadConfig`: clear the state, then read config.txt line by line.
     * The new state and the status are those `ReloadOutcome` describes.
     */
    method ReloadConfig(file: ConfigFile, parseGain: GainParser) returns (status: Result<()>)
      modifies this
      ensures Loaded(Config(profiles, preampState), status) == ReloadOutcome(configFolder, file, parseGain)
    {
      profiles := [];
      preampState := DefaultPreamp;
      if file.Unopenable? {
        return Failure(OpenForReadingFailed(ConfigFilePath(configFolder)));
      }
      var lines := SplitLines(file.text);
      ghost var ks := Kinds(lines);
      var i := 0;
      while i < |lines|
        invariant 0 <= i <= |lines|
        invariant Load(Config(profiles, preampState), ks[i..], parseGain) == Parse(lines, parseGain)
      {
        LoadNext(Config(profiles, preampState), ks, i, parseGain);
        var k := Classify(lines[i]);
        assert ks[i] == k;
        match k {
          case Blank =>
          case PreampDirective(enabled, gainText, cleanLine) =>
            preampState := preampState.(enabled := enabled);
            var gain := parseGain(gainText);
            if gain.Some? {
              preampState := preampState.(gain := gain.value);
            } else {
              return Failure(BadPreampGain(cleanLine));
            }
          case IncludeDirective(profile) =>
            profiles := profiles + [profile];
          case Unrecognised(line) =>
            return Failure(UnknownLine(line));
        }
        i := i + 1;
      }
      assert ks[i..] == [];
      if file.readFails {
        return Failure(ReadFailed);
      }
      if file.closeFails {
        return Failure(CloseAfterReadingFailed);
      }
      return Success(());
    }

    /** `setProfileEnabled`: flip the flag of one profile; `index` must name a profile. */
    method SetProfileEnabled(index: nat, enabled: bool)
      requires index < |profiles|
      modifies this
      ensures profiles == old(profiles)[index := old(profiles)[index].(enabled := enabled)]
      ensures preampState == old(preampState)
    {
      profiles := profiles[index := profiles[index].(enabled := enabled)];
    }

    /** `setPreampGain`: replace the preamp state. */
    method SetPreampGain(gain: Gain, enabled: bool)
      modifies this
      ensures preampState == PreampState(gain, enabled)
      ensures profiles == old(profiles)
    {
      preampState := PreampState(gain, enabled);
    }

    /**
     * `saveState`: open config.txt for writing (with retries), write the
     * preamp line and one include line per profile, then close. The state
     * is not changed.
     */
    method SaveState(writeOpens: nat -> bool, closeSucceeds: bool) returns (status: Result<()>, written: string)
      ensures written == if OpensWithin(writeOpens) then JoinLines(Render(Config(profiles, preampState))) else []
      ensures !OpensWithin(writeOpens) ==> status == Failure(OpenForWritingFailed)
      ensures OpensWithin(writeOpens) ==> status == if closeSucceeds then Success(()) else Failure(WriteFailed)
    {
      var isOpen, _ := TryOpenFile(writeOpens);
      if !isOpen {
        return Failure(OpenForWritingFailed), [];
      }
      written := PreampText(preampState) + "\n";
      assert written == JoinLines([PreampText(preampState)]);
      var i := 0;
      while i < |profiles|
        invariant 0 <= i <= |profiles|
        invariant written == JoinLines([PreampText(preampState)] + ProfileLines(profiles[..i]))
      {
        var line := IncludeText(profiles[i]);
        assert ProfileLines(profiles[..i + 1]) == ProfileLines(profiles[..i]) + [line];
        JoinLinesSnoc([PreampText(preampState)] + ProfileLines(profiles[..i]), line);
        assert [PreampText(preampState)] + ProfileLines(profiles[..i]) + [line]
            == [PreampText(preampState)] + ProfileLines(profiles[..i + 1]);
        written := written + line + "\n";
        i := i + 1;
      }
      assert profiles[..i] == profiles;
      if !closeSucceeds {
        return Failure(WriteFailed), written;
      }
      return Success(()), written;
    }

    /**
     * `createNewProfile`: make sure the profile file exists, open config.txt
     * for appending (with retries) and append a disabled include of the file
     * unless it is already included. On success the result is the profile
     * file's path. `created` says whether an empty profile file was created;
     * the state is not changed.
     *
     * The duplicate check compares the loaded profiles with the normalised
     * file name, which is what the source evidently intends; the source
     * compares with `name` itself (see `AppendedLinesAsWritten`).
     */
    method CreateNewProfile(name: string, fileExists: bool, createSucceeds: bool,
                            appendOpens: nat -> bool, writeSucceeds: bool)
      returns (result: Result<string>, created: bool, appended: string)
      ensures created <==> !fileExists && createSucceeds
      ensures !fileExists && !createSucceeds ==> result == Failure(CreateFileFailed) && appended == []
      ensures (fileExists || createSucceeds) && !OpensWithin(appendOpens) ==>
                result == Failure(OpenForAppendingFailed) && appended == []
      ensures (fileExists || createSucceeds) && OpensWithin(appendOpens) ==>
                appended == JoinLines(AppendedLines(profiles, name)) &&
                result == if appended != [] && !writeSucceeds then Failure(AppendFailed)
                          else Success(configFolder + "/" + NormalizeFileName(name))
    {
      var fileName := NormalizeFileName(name);
      var filePath := configFolder + "/" + fileName;
      created := false;
      if !fileExists {
        if !createSucceeds {
          return Failure(CreateFileFailed), created, [];
        }
        created := true;
      }
      var isOpen, _ := TryOpenFile(appendOpens);
      if !isOpen {
        return Failure(OpenForAppendingFailed), created, [];
      }
      var j := 0;
      while j < |profiles| && !EqualsCI(profiles[j].name, fileName)
        invariant 0 <= j <= |profiles|
        invariant forall k :: 0 <= k < j ==> !EqualsCI(profiles[k].name, fileName)
      {
        j := j + 1;
      }
      if j < |profiles| {
        return Success(filePath), created, [];
      }
      appended := NewIncludeLine(fileName) + "\n";
      assert appended == JoinLines([NewIncludeLine(fileName)]);
      if !writeSucceeds {
        return Failure(AppendFailed), created, appended;
      }
      return Success(filePath), created, appended;
    }
  }

  /** One more line of a reload: loading from position `i` is a step, then, unless it failed, loading from `i + 1`. */
  lemma LoadNext(c: Config, ks: seq<LineKind>, i: nat, pg: GainParser)
    requires i < |ks|
    ensures Step(c, ks[i], pg).status.Failure? ==> Load(c, ks[i..], pg) == Step(c, ks[i], pg)
    ensures Step(c, ks[i], pg).status.Success? ==>
              Load(c, ks[i..], pg) == Load(Step(c, ks[i], pg).config, ks[i + 1..], pg)
  {
    assert ks[i..][0] == ks[i];
    assert ks[i..][1..] == ks[i + 1..];
  }

  /** Turning one profile on or off changes only that profile's line of the saved file. */
  lemma RenderAfterSetProfileEnabled(c: Config, index: nat, enabled: bool)
    requires index < |c.profiles|
    ensures Render(c.(profiles := c.profiles[index := c.profiles[index].(enabled := enabled)]))
         == Render(c)[index + 1 := IncludeText(c.profiles[index].(enabled := enabled))]
  {
  }

  /** Setting the preamp changes only the first line of the saved file. */
  lemma RenderAfterSetPreamp(c: Config, p: PreampState)
    ensures Render(c.(preamp := p)) == Render(c)[0 := PreampText(p)]
  {
  }

  /**
   * A save whose open and close succeed, followed by a reload that reads
   * the text it wrote, restores the state, when the names are trimmed and
   * hold no newline and the gain parser reads the formatted gain back.
   */
  lemma SaveThenReload(folder: string, c: Config, pg: GainParser)
    requires NamesTrimmed(c.profiles) && NoLineBreaks(c.profiles)
    requires pg(FormatGain(c.preamp.gain)) == Some(c.preamp.gain)
    ensures ReloadOutcome(folder, Readable(JoinLines(Render(c)), false, false), pg) == Loaded(c, Success(()))
  {
    RenderNoLineBreaks(c);
    SplitJoin(Render(c));
    RenderParseRoundTrip(c, pg);
  }

  /**
   * Every state a reload can leave has trimmed names without newlines, and
   * toggling a profile keeps them so; such a state, saved with the gain
   * parser that reads the save's format, reloads to itself.
   */
  lemma ReloadedStateSurvivesSave(folder: string, file: ConfigFile, index: nat, enabled: bool)
    requires index < |ReloadOutcome(folder, file, ParseGainText).config.profiles|
    ensures var c := ReloadOutcome(folder, file, ParseGainText).config;
            var c' := c.(profiles := c.profiles[index := c.profiles[index].(enabled := enabled)]);
            ReloadOutcome(folder, Readable(JoinLines(Render(c')), false, false), ParseGainText) == Loaded(c', Success(()))
  {
    var c := ReloadOutcome(folder, file, ParseGainText).config;
    if file.Readable? {
      ParsedNamesTrimmed(SplitLines(file.text), ParseGainText);
      ParsedNoLineBreaks(SplitLines(file.text), ParseGainText);
    }
    var c' := c.(profiles := c.profiles[index := c.profiles[index].(enabled := enabled)]);
    assert NamesTrimmed(c'.profiles) && NoLineBreaks(c'.profiles) by {
      forall i | 0 <= i < |c'.profiles| ensures Trimmed(c'.profiles[i].name) && NoLineBreak(c'.profiles[i].name) {
        assert c'.profiles[i].name == c.profiles[i].name;
      }
    }
    ParseFormatGain(c'.preamp.gain);
    SaveThenReload(folder, c', ParseGainText);
  }
}
