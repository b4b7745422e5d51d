/**
 * The text format of Equalizer APO's `config.txt` as the profile switcher
 * reads and writes it: one `Preamp:` line and any number of `Include:` lines,
 * where a leading `#` turns a line off instead of deleting it.
 *
 * The data types are those of EqApoConfig.h. Parsing is specified line by
 * line: `Classify` is what one line means, `ParseFrom` folds the lines into
 * the stored state exactly as the reload loop does, stopping at the first
 * bad line. `Render` is what the save writes back.
 */
module EqApoFormat {
  import opened Text

  datatype Option<+T> = None | Some(value: T)

  /** A failure as `std::expected` reports it; `T` is `()` for the operations that return nothing. */
  datatype Result<+T> = Success(value: T) | Failure(error: ConfigError)

  /**
   * A preamp gain in tenths of a decibel. The file stores the gain with one
   * fractional digit, so this is the precision that survives a save.
   */
  type Gain = int

  /** The model of `QString::toDouble` applied to the gain text: a number, or none when the text is not one. */
  type GainParser = string -> Option<Gain>

  /** `EqProfile`: a profile file named by an `Include:` line, and whether that line is active. */
  datatype EqProfile = EqProfile(name: string, enabled: bool)

  /** `PreampState`: the master gain and whether its line is active. */
  datatype PreampState = PreampState(gain: Gain, enabled: bool)

  /** A default-constructed `PreampState`: gain 0, disabled. */
  const DefaultPreamp := PreampState(0, false)

  /** The state an `EqApoConfig` holds: `_profiles` in file order and `_preampState`. */
  datatype Config = Config(profiles: seq<EqProfile>, preamp: PreampState)

  /** The state a reload starts from. */
  const EmptyConfig := Config([], DefaultPreamp)

  /** The failures the configuration object reports, one per error message of the source. */
  datatype ConfigError =
    | OpenForReadingFailed(path: string)
    | BadPreampGain(line: string)
    | UnknownLine(line: string)
    | ReadFailed
    | CloseAfterReadingFailed
    | CreateFileFailed
    | OpenForAppendingFailed
    | AppendFailed
    | OpenForWritingFailed
    | WriteFailed

  /** What one line of config.txt is. */
  datatype LineKind =
    | Blank
      /** A `Preamp:` line: its enabled flag, the text the gain is read from, and the line without its `#`. */
    | PreampDirective(enabled: bool, gainText: string, text: string)
    | IncludeDirective(profile: EqProfile)
      /** Anything else; `line` is the trimmed line. */
    | Unrecognised(line: string)

  /**
   * The meaning of one line read from config.txt. The line is trimmed; a
   * blank line means nothing. A leading `#` marks the line disabled and is
   * removed with the whitespace after it. What is left is a preamp line if it
   * starts with `Preamp:` in any case (tested first), an include line if it
   * starts with `Include:`, and otherwise not a line the format knows.
   */
  function Classify(raw: string): (k: LineKind)
    ensures k.PreampDirective? ==> Trimmed(k.gainText)
    ensures k.IncludeDirective? ==> Trimmed(k.profile.name)
    ensures k.Unrecognised? ==> k.line != [] && Trimmed(k.line)
  {
    var line := Trim(raw);
    if line == [] then Blank
    else
      var commented := line[0] == '#';
      Directive(if commented then Trim(line[1..]) else line, !commented, line)
  }

  /** What a non-blank trimmed `line` means, once its `#` marker (if any) is gone and `clean` is left. */
  function Directive(clean: string, enabled: bool, line: string): (k: LineKind)
    ensures !k.Blank?
    ensures k.PreampDirective? ==> k.enabled == enabled && k.text == clean && Trimmed(k.gainText)
    ensures k.IncludeDirective? ==> k.profile.enabled == enabled && Trimmed(k.profile.name)
    ensures k.Unrecognised? ==> k.line == line
  {
    if StartsWithCI(clean, "Preamp:") then
      PreampDirective(enabled, Trim(RemoveAllCI(RemoveAllCI(clean, "Preamp:"), "dB")), clean)
    else if StartsWithCI(clean, "Include:") then
      IncludeDirective(EqProfile(Trim(clean[IndexOf(clean, ':') + 1..]), enabled))
    else
      Unrecognised(line)
  }

  /** The preamp after a line of kind `k`: a preamp line sets the flag, and the gain when its text parses. */
  function ApplyPreamp(p: PreampState, k: LineKind, parseGain: GainParser): (q: PreampState)
    ensures !k.PreampDirective? ==> q == p
    ensures k.PreampDirective? ==> q.enabled == k.enabled
    ensures k.PreampDirective? && parseGain(k.gainText).Some? ==> q == PreampState(parseGain(k.gainText).value, k.enabled)
    ensures k.PreampDirective? && parseGain(k.gainText).None? ==> q.gain == p.gain
  {
    if k.PreampDirective? then
      var q := p.(enabled := k.enabled);
      match parseGain(k.gainText)
      case Some(g) => q.(gain := g)
      case None => q
    else p
  }

  /** Whether a line of kind `k` ends the reload with an error, and which. */
  function LineStatus(k: LineKind, parseGain: GainParser): (r: Result<()>)
    ensures r.Failure? <==> k.Unrecognised? || (k.PreampDirective? && parseGain(k.gainText).None?)
    ensures r.Failure? ==> r.error.BadPreampGain? || r.error.UnknownLine?
    ensures k.Unrecognised? ==> r == Failure(UnknownLine(k.line))
    ensures k.PreampDirective? && parseGain(k.gainText).None? ==> r == Failure(BadPreampGain(k.text))
  {
    match k
    case PreampDirective(_, gainText, text) =>
      if parseGain(gainText).Some? then Success(()) else Failure(BadPreampGain(text))
    case Unrecognised(line) => Failure(UnknownLine(line))
    case _ => Success(())
  }

  /** The state after one more line, and whether reading may go on. */
  datatype Loaded = Loaded(config: Config, status: Result<()>)

  function Step(c: Config, k: LineKind, parseGain: GainParser): (n: Loaded)
    ensures c.profiles <= n.config.profiles
    ensures |n.config.profiles| == |c.profiles| + (if k.IncludeDirective? then 1 else 0)
  {
    var profiles := if k.IncludeDirective? then c.profiles + [k.profile] else c.profiles;
    Loaded(Config(profiles, ApplyPreamp(c.preamp, k, parseGain)), LineStatus(k, parseGain))
  }

  /** The meaning of every line of a file, in order. */
  function Kinds(lines: seq<string>): seq<LineKind> {
    seq(|lines|, i requires 0 <= i < |lines| => Classify(lines[i]))
  }

  /**
   * The lines of kinds `ks` applied to `c` in order, stopping at the first
   * line that fails; the state reached so far is kept, not rolled back.
   */
  function Load(c: Config, ks: seq<LineKind>, parseGain: GainParser): (r: Loaded)
    decreases |ks|
    ensures c.profiles <= r.config.profiles && |r.config.profiles| <= |c.profiles| + |ks|
    ensures r.status.Failure? ==> r.status.error.BadPreampGain? || r.status.error.UnknownLine?
  {
    if ks == [] then Loaded(c, Success(()))
    else
      var next := Step(c, ks[0], parseGain);
      if next.status.Failure? then next else Load(next.config, ks[1..], parseGain)
  }

  /** The lines of a file applied to `c`. */
  function ParseFrom(c: Config, lines: seq<string>, parseGain: GainParser): (r: Loaded)
    ensures c.profiles <= r.config.profiles && |r.config.profiles| <= |c.profiles| + |lines|
  {
    Load(c, Kinds(lines), parseGain)
  }

  /** The state a reload builds from the lines of config.txt. */
  function Parse(lines: seq<string>, parseGain: GainParser): (r: Loaded)
    ensures |r.config.profiles| <= |lines|
    ensures r.status.Failure? ==> r.status.error.BadPreampGain? || r.status.error.UnknownLine?
  {
    ParseFrom(EmptyConfig, lines, parseGain)
  }

  // ---------------------------------------------------------------------
  // Rendering

  function DigitChar(d: nat): (c: char)
    requires d < 10
    ensures '0' <= c <= '9'
  {
    (('0' as int) + d) as char
  }

  /** The decimal digits of `n`, most significant first. */
  function NatText(n: nat): (s: string)
    ensures s != [] && forall i :: 0 <= i < |s| ==> '0' <= s[i] <= '9'
  {
    if n < 10 then [DigitChar(n)] else NatText(n / 10) + [DigitChar(n % 10)]
  }

  /** A character the gain format produces. */
  predicate GainChar(c: char) {
    '0' <= c <= '9' || c == '-' || c == '.'
  }

  /** `QString::arg(gain, 0, 'f', 1)` for a gain in tenths: an optional minus, whole decibels, a point, one digit. */
  function FormatGain(g: Gain): (s: string)
    ensures s != [] && forall i :: 0 <= i < |s| ==> GainChar(s[i])
    ensures '0' <= s[|s| - 1] <= '9'
  {
    var m := if g < 0 then -g else g;
    (if g < 0 then "-" else "") + NatText(m / 10) + "." + [DigitChar(m % 10)]
  }

  /** The preamp line `saveState` writes: `Preamp: <gain> dB`, behind a `#` when disabled. */
  function PreampText(p: PreampState): (s: string)
    ensures s != [] && Trimmed(s) && (s[0] == '#' <==> !p.enabled)
    ensures '\n' !in s
  {
    var f := FormatGain(p.gain);
    assert '\n' !in f by {
      forall i | 0 <= i < |f| ensures f[i] != '\n' { assert GainChar(f[i]); }
    }
    var s := (if p.enabled then "" else "#") + "Preamp: " + f + " dB";
    assert s[|s| - 1] == 'B';
    assert s[0] == if p.enabled then 'P' else '#';
    s
  }

  /** The line written for a profile: `Include: <name>`, behind a `#` when disabled. */
  function IncludeText(p: EqProfile): (s: string)
    ensures s != [] && (s[0] == '#' <==> !p.enabled)
    ensures '\n' in s <==> '\n' in p.name
  {
    var lead := (if p.enabled then "" else "#") + "Include: ";
    assert '\n' !in lead;
    var s := lead + p.name;
    assert s[0] == lead[0];
    s
  }

  function ProfileLines(ps: seq<EqProfile>): seq<string> {
    seq(|ps|, i requires 0 <= i < |ps| => IncludeText(ps[i]))
  }

  /** The lines `saveState` writes: the preamp line, then one line per profile in stored order. */
  function Render(c: Config): (ls: seq<string>)
    ensures |ls| == |c.profiles| + 1 && ls[0] == PreampText(c.preamp)
    ensures forall i :: 0 <= i < |c.profiles| ==> ls[i + 1] == IncludeText(c.profiles[i])
  {
    [PreampText(c.preamp)] + ProfileLines(c.profiles)
  }

  // ---------------------------------------------------------------------
  // One line: rendering and classifying

  /**
   * A line that starts with `Include:` in any case, and so not with
   * `Preamp:`, names the text after its first colon, trimmed, even when that
   * text holds more colons.
   */
  lemma DirectiveIncludeCI(clean: string, enabled: bool, line: string)
    requires StartsWithCI(clean, "Include:")
    ensures Directive(clean, enabled, line) == IncludeDirective(EqProfile(Trim(clean[8..]), enabled))
  {
    assert Lower(clean[0]) == 'i';
    assert !StartsWithCI(clean, "Preamp:");
    forall i | 0 <= i < 7 ensures clean[i] != ':' {
      assert Lower(clean[i]) == Lower("Include:"[i]);
    }
    assert Lower(clean[7]) == ':';
    assert ':' !in clean[..7];
    assert IndexOf(clean, ':') == 7;
  }

  /** An active line that trims to an `Include:` line in any case includes the trimmed text after the colon. */
  lemma ClassifyIncludeCI(raw: string, clean: string)
    requires Trim(raw) == clean && clean != [] && clean[0] != '#' && StartsWithCI(clean, "Include:")
    ensures Classify(raw) == IncludeDirective(EqProfile(Trim(clean[8..]), true))
  {
    DirectiveIncludeCI(clean, true, clean);
  }

  /** The same for an `Include:` written exactly so. */
  lemma DirectiveInclude(rest: string, enabled: bool, line: string)
    ensures Directive("Include:" + rest, enabled, line) == IncludeDirective(EqProfile(Trim(rest), enabled))
  {
    var clean := "Include:" + rest;
    assert StartsWithCI(clean, "Include:");
    DirectiveIncludeCI(clean, enabled, line);
    assert clean[8..] == rest;
  }

  /** Trimming `lead`, a space and a name whose trimmed core `t` is not empty. */
  lemma TrimLedCore(lead: string, a: string, t: string, b: string)
    requires lead != [] && !IsSpace(lead[0]) && !IsSpace(lead[|lead| - 1])
    requires AllSpace(a) && AllSpace(b) && Trimmed(t) && t != []
    ensures Trim(lead + " " + a + t + b) == lead + " " + a + t
  {
    assert lead + " " + a + t + b == [] + (lead + " " + a + t) + b;
    TrimUnique([], lead + " " + a + t, b);
  }

  /** Trimming `lead`, a space and a name that is all whitespace. */
  lemma TrimLedBlank(lead: string, a: string, b: string)
    requires lead != [] && !IsSpace(lead[0]) && !IsSpace(lead[|lead| - 1])
    requires AllSpace(a) && AllSpace(b)
    ensures Trim(lead + " " + a + b) == lead
  {
    assert lead + " " + a + b == [] + lead + (" " + a + b);
    AllSpaceConcat(" " + a, b);
    TrimUnique([], lead, " " + a + b);
  }

  /** A line whose trimmed form is an `Include:` directive, commented or not, names the trimmed rest. */
  lemma ClassifyTrimmedInclude(raw: string, enabled: bool, rest: string, name: string)
    requires Trim(raw) == (if enabled then "" else "#") + "Include:" + rest
    requires Trimmed("Include:" + rest)
    requires Trim(rest) == name
    ensures Classify(raw) == IncludeDirective(EqProfile(name, enabled))
  {
    var line := Trim(raw);
    var clean := "Include:" + rest;
    if !enabled {
      assert line[1..] == [] + clean + [];
      TrimUnique([], clean, []);
    } else {
      assert line == clean;
    }
    DirectiveInclude(rest, enabled, line);
  }

  /** A trimmed core behind whitespace trims to itself. */
  lemma TrimSpaced(a: string, t: string)
    requires AllSpace(a) && Trimmed(t)
    ensures Trim(" " + a + t) == t
  {
    TrimUnique(" " + a, t, []);
    assert " " + a + t + [] == " " + a + t;
  }

  /**
   * A rendered profile line reads back as an include of the same profile
   * with its name trimmed: the `#` marker carries the enabled flag whatever
   * the name is.
   */
  lemma ClassifyIncludeText(p: EqProfile)
    ensures Classify(IncludeText(p)) == IncludeDirective(EqProfile(Trim(p.name), p.enabled))
  {
    var a, b := TrimSplit(p.name);
    if Trim(p.name) == [] {
      ClassifyIncludeBlankName(p, a, b);
    } else {
      ClassifyIncludeNamed(p, a, Trim(p.name), b);
    }
  }

  lemma ClassifyIncludeBlankName(p: EqProfile, a: string, b: string)
    requires p.name == a + b && AllSpace(a) && AllSpace(b)
    ensures Classify(IncludeText(p)) == IncludeDirective(EqProfile([], p.enabled))
  {
    var lead := (if p.enabled then "" else "#") + "Include:";
    assert IncludeText(p) == lead + " " + a + b;
    TrimLedBlank(lead, a, b);
    assert lead == lead + "";
    ClassifyTrimmedInclude(IncludeText(p), p.enabled, "", []);
  }

  lemma ClassifyIncludeNamed(p: EqProfile, a: string, t: string, b: string)
    requires p.name == a + t + b && AllSpace(a) && AllSpace(b) && Trimmed(t) && t != []
    ensures Classify(IncludeText(p)) == IncludeDirective(EqProfile(t, p.enabled))
  {
    var lead := (if p.enabled then "" else "#") + "Include:";
    assert IncludeText(p) == lead + " " + a + t + b;
    TrimLedCore(lead, a, t, b);
    assert lead + " " + a + t == lead + (" " + a + t);
    TrimSpaced(a, t);
    ClassifyTrimmedInclude(IncludeText(p), p.enabled, " " + a + t, t);
  }

  /** A profile line reads back as exactly its profile if and only if the name is already trimmed. */
  lemma IncludeRoundTrip(p: EqProfile)
    ensures Classify(IncludeText(p)) == IncludeDirective(p) <==> Trimmed(p.name)
  {
    ClassifyIncludeText(p);
    TrimFixed(p.name);
    assert EqProfile(Trim(p.name), p.enabled) == p <==> Trim(p.name) == p.name;
  }

  /** Neither the gain text nor the spaces and the unit around it hold a `:`, and no `b` stands before the unit. */
  lemma GainTextLetters(f: string, unit: string)
    requires forall i :: 0 <= i < |f| ==> GainChar(f[i])
    requires EqualsCI(unit, "dB")
    ensures forall i :: 0 <= i < |" " + f + " " + unit| ==> Lower((" " + f + " " + unit)[i]) != ':'
    ensures forall i :: 0 <= i < |" " + f + " "| ==> Lower((" " + f + " ")[i]) != 'b'
  {
    var afterKey := " " + f + " " + unit;
    forall i | 0 <= i < |afterKey| ensures Lower(afterKey[i]) != ':' {
      if 1 <= i < |f| + 1 {
        assert afterKey[i] == f[i - 1];
      } else if i >= |f| + 2 {
        assert afterKey[i] == unit[i - |f| - 2];
        assert Lower(unit[i - |f| - 2]) == Lower("dB"[i - |f| - 2]);
      }
    }
    var padded := " " + f + " ";
    forall i | 0 <= i < |padded| ensures Lower(padded[i]) != 'b' {
      if 1 <= i < |f| + 1 { assert padded[i] == f[i - 1]; }
    }
  }

  /**
   * Removing `key` and then `unit` from `keyText + padded + unitText`, where
   * `keyText` and `unitText` match them in any case, leaves `padded`, when
   * neither pattern's last letter reappears.
   */
  lemma RemoveKeyAndUnit(keyText: string, key: string, padded: string, unitText: string, unit: string)
    requires key != [] && |keyText| == |key| && StartsWithCI(keyText, key)
    requires unit != [] && |unitText| == |unit| && StartsWithCI(unitText, unit)
    requires forall i :: 0 <= i < |padded + unitText| ==> Lower((padded + unitText)[i]) != Lower(key[|key| - 1])
    requires forall i :: 0 <= i < |padded| ==> Lower(padded[i]) != Lower(unit[|unit| - 1])
    requires forall i :: 0 <= i < |unit| - 1 ==> Lower(unit[i]) != Lower(unit[|unit| - 1])
    ensures RemoveAllCI(RemoveAllCI(keyText + (padded + unitText), key), unit) == padded
  {
    RemoveLeading(keyText, key, padded + unitText);
    RemoveTrailing(padded, unitText, unit);
  }

  /** Removing `Preamp:` and then `dB`, in any case, from `<key> <f> <unit>` leaves the gain text between two spaces. */
  lemma RemovePreampKeywords(key: string, f: string, unit: string)
    requires EqualsCI(key, "Preamp:") && EqualsCI(unit, "dB")
    requires forall i :: 0 <= i < |f| ==> GainChar(f[i])
    ensures RemoveAllCI(RemoveAllCI(key + " " + f + " " + unit, "Preamp:"), "dB") == " " + f + " "
  {
    var padded := " " + f + " ";
    GainTextLetters(f, unit);
    assert padded + unit == " " + f + " " + unit;
    assert key + " " + f + " " + unit == key + (padded + unit);
    RemoveKeyAndUnit(key, "Preamp:", padded, unit, "dB");
  }

  /**
   * The gain text of a `Preamp:` line is what stands between the keyword and
   * the unit, whatever the case of either.
   */
  lemma DirectivePreampCI(key: string, f: string, unit: string, enabled: bool, line: string)
    requires EqualsCI(key, "Preamp:") && EqualsCI(unit, "dB")
    requires f != [] && forall i :: 0 <= i < |f| ==> GainChar(f[i])
    ensures Directive(key + " " + f + " " + unit, enabled, line)
         == PreampDirective(enabled, f, key + " " + f + " " + unit)
  {
    var clean := key + " " + f + " " + unit;
    assert forall i :: 0 <= i < |key| ==> clean[i] == key[i];
    assert StartsWithCI(clean, "Preamp:");
    RemovePreampKeywords(key, f, unit);
    assert Trimmed(f);
    assert AllSpace(" ");
    TrimUnique(" ", f, " ");
  }

  /** A rendered preamp line is already trimmed. */
  lemma PreampTextTrimmed(p: PreampState)
    ensures Trim(PreampText(p)) == PreampText(p)
    ensures p.enabled ==> PreampText(p)[0] != '#'
    ensures !p.enabled ==> PreampText(p)[0] == '#' && Trim(PreampText(p)[1..]) == PreampText(p)[1..]
  {
    var s := PreampText(p);
    assert Trimmed(s);
    TrimUnique([], s, []);
    assert [] + s + [] == s;
    if !p.enabled {
      assert Trimmed(s[1..]);
      TrimUnique([], s[1..], []);
      assert [] + s[1..] + [] == s[1..];
    }
  }

  /**
   * A rendered preamp line reads back as a preamp line with the same enabled
   * flag whose gain text is exactly the formatted gain.
   */
  lemma ClassifyPreampText(p: PreampState)
    ensures Classify(PreampText(p))
         == PreampDirective(p.enabled, FormatGain(p.gain), "Preamp: " + FormatGain(p.gain) + " dB")
  {
    var f := FormatGain(p.gain);
    PreampTextTrimmed(p);
    var line := PreampText(p);
    var clean := "Preamp:" + " " + f + " " + "dB";
    assert clean == "Preamp: " + f + " dB";
    if p.enabled {
      assert line == clean;
    } else {
      assert line[1..] == clean;
    }
    DirectivePreampCI("Preamp:", f, "dB", p.enabled, line);
  }

  // ---------------------------------------------------------------------
  // Whole files: parsing what was rendered, and the shape of a parse

  /** Loading `a + b` is loading `a`, then, unless `a` failed, loading `b` from where `a` left off. */
  lemma {:induction false} LoadConcat(c: Config, a: seq<LineKind>, b: seq<LineKind>, pg: GainParser)
    decreases |a|
    ensures Load(c, a, pg).status.Failure? ==> Load(c, a + b, pg) == Load(c, a, pg)
    ensures Load(c, a, pg).status.Success? ==> Load(c, a + b, pg) == Load(Load(c, a, pg).config, b, pg)
  {
    if a == [] {
      assert a + b == b;
    } else {
      assert (a + b)[0] == a[0];
      assert (a + b)[1..] == a[1..] + b;
      var next := Step(c, a[0], pg);
      if next.status.Success? {
        LoadConcat(next.config, a[1..], b, pg);
      }
    }
  }

  /** The meaning of each line does not depend on its neighbours. */
  lemma KindsConcat(a: seq<string>, b: seq<string>)
    ensures Kinds(a + b) == Kinds(a) + Kinds(b)
  {
    forall i | 0 <= i < |a| + |b| ensures Kinds(a + b)[i] == (Kinds(a) + Kinds(b))[i] {
      if i < |a| {
        assert (a + b)[i] == a[i];
      } else {
        assert (a + b)[i] == b[i - |a|];
      }
    }
  }

  lemma KindsSingle(line: string)
    ensures Kinds([line]) == [Classify(line)]
  {
  }

  /** Parsing the lines `a + b` is parsing `a`, then, unless `a` failed, parsing `b` from where `a` left off. */
  lemma ParseFromConcat(c: Config, a: seq<string>, b: seq<string>, pg: GainParser)
    ensures ParseFrom(c, a, pg).status.Failure? ==> ParseFrom(c, a + b, pg) == ParseFrom(c, a, pg)
    ensures ParseFrom(c, a, pg).status.Success? ==>
              ParseFrom(c, a + b, pg) == ParseFrom(ParseFrom(c, a, pg).config, b, pg)
  {
    KindsConcat(a, b);
    LoadConcat(c, Kinds(a), Kinds(b), pg);
  }

  /** The profiles with their names trimmed, as reading them back produces them. */
  function TrimNames(ps: seq<EqProfile>): seq<EqProfile> {
    seq(|ps|, i requires 0 <= i < |ps| => EqProfile(Trim(ps[i].name), ps[i].enabled))
  }

  predicate NamesTrimmed(ps: seq<EqProfile>) {
    forall i :: 0 <= i < |ps| ==> Trimmed(ps[i].name)
  }

  /** Trimming the names changes nothing exactly when they are trimmed already. */
  lemma TrimNamesFixed(ps: seq<EqProfile>)
    ensures TrimNames(ps) == ps <==> NamesTrimmed(ps)
  {
    if NamesTrimmed(ps) {
      forall i | 0 <= i < |ps| ensures TrimNames(ps)[i] == ps[i] {
        TrimUnique([], ps[i].name, []);
        assert [] + ps[i].name + [] == ps[i].name;
      }
    }
  }

  function IncludeKinds(ps: seq<EqProfile>): seq<LineKind> {
    seq(|ps|, i requires 0 <= i < |ps| => IncludeDirective(ps[i]))
  }

  /** Include lines only ever add their profiles, in order, and never fail. */
  lemma {:induction false} LoadIncludes(c: Config, ps: seq<EqProfile>, pg: GainParser)
    decreases |ps|
    ensures Load(c, IncludeKinds(ps), pg) == Loaded(c.(profiles := c.profiles + ps), Success(()))
  {
    var ks := IncludeKinds(ps);
    if ps == [] {
      assert c.profiles + ps == c.profiles;
    } else {
      assert ks[0] == IncludeDirective(ps[0]);
      assert ks[1..] == IncludeKinds(ps[1..]);
      LoadIncludes(c.(profiles := c.profiles + [ps[0]]), ps[1..], pg);
      assert c.profiles + [ps[0]] + ps[1..] == c.profiles + ps;
    }
  }

  /** Each rendered profile line means an include of its profile with the name trimmed. */
  lemma KindsOfProfileLines(ps: seq<EqProfile>)
    ensures Kinds(ProfileLines(ps)) == IncludeKinds(TrimNames(ps))
  {
    forall i | 0 <= i < |ps| ensures Kinds(ProfileLines(ps))[i] == IncludeKinds(TrimNames(ps))[i] {
      ClassifyIncludeText(ps[i]);
    }
  }

  /** The profile lines read back as one include each, in order, with trimmed names and their flags, and never fail. */
  lemma ParseProfileLines(c: Config, ps: seq<EqProfile>, pg: GainParser)
    ensures ParseFrom(c, ProfileLines(ps), pg) == Loaded(c.(profiles := c.profiles + TrimNames(ps)), Success(()))
  {
    KindsOfProfileLines(ps);
    LoadIncludes(c, TrimNames(ps), pg);
  }

  /** What the lines a save writes mean: the preamp line with its formatted gain, then one include per profile. */
  lemma KindsOfRender(c: Config)
    ensures Kinds(Render(c))
         == [PreampDirective(c.preamp.enabled, FormatGain(c.preamp.gain), "Preamp: " + FormatGain(c.preamp.gain) + " dB")]
            + IncludeKinds(TrimNames(c.profiles))
  {
    KindsConcat([PreampText(c.preamp)], ProfileLines(c.profiles));
    KindsSingle(PreampText(c.preamp));
    ClassifyPreampText(c.preamp);
    KindsOfProfileLines(c.profiles);
  }

  /** A preamp line followed by include lines, loaded from the start. */
  lemma LoadPreampThenIncludes(k: LineKind, ps: seq<EqProfile>, pg: GainParser)
    requires k.PreampDirective?
    ensures pg(k.gainText).None? ==>
              Load(EmptyConfig, [k] + IncludeKinds(ps), pg)
              == Loaded(Config([], DefaultPreamp.(enabled := k.enabled)), Failure(BadPreampGain(k.text)))
    ensures pg(k.gainText).Some? ==>
              Load(EmptyConfig, [k] + IncludeKinds(ps), pg)
              == Loaded(Config(ps, PreampState(pg(k.gainText).value, k.enabled)), Success(()))
  {
    var ks := [k] + IncludeKinds(ps);
    assert ks[0] == k;
    assert ks[1..] == IncludeKinds(ps);
    if pg(k.gainText).Some? {
      var start := Config([], PreampState(pg(k.gainText).value, k.enabled));
      LoadIncludes(start, ps, pg);
      assert [] + ps == ps;
    }
  }

  /**
   * What a reload reads back from the lines a save wrote: the preamp line
   * fails exactly when the gain text does not parse, and otherwise every
   * profile comes back with its name trimmed.
   */
  lemma ParseRendered(c: Config, pg: GainParser)
    ensures pg(FormatGain(c.preamp.gain)).None? ==>
              Parse(Render(c), pg)
              == Loaded(Config([], DefaultPreamp.(enabled := c.preamp.enabled)),
                        Failure(BadPreampGain("Preamp: " + FormatGain(c.preamp.gain) + " dB")))
    ensures pg(FormatGain(c.preamp.gain)).Some? ==>
              Parse(Render(c), pg)
              == Loaded(Config(TrimNames(c.profiles), c.preamp.(gain := pg(FormatGain(c.preamp.gain)).value)),
                        Success(()))
  {
    KindsOfRender(c);
    var f := FormatGain(c.preamp.gain);
    LoadPreampThenIncludes(PreampDirective(c.preamp.enabled, f, "Preamp: " + f + " dB"), TrimNames(c.profiles), pg);
  }

  /**
   * Saving and reloading gives back the same state, without error, exactly
   * when every profile name is trimmed and the gain parser reads the
   * formatted gain as the gain itself.
   */
  lemma RenderParseRoundTrip(c: Config, pg: GainParser)
    ensures Parse(Render(c), pg) == Loaded(c, Success(()))
        <==> NamesTrimmed(c.profiles) && pg(FormatGain(c.preamp.gain)) == Some(c.preamp.gain)
  {
    ParseRendered(c, pg);
    TrimNamesFixed(c.profiles);
  }

  /** Every include line among `ks` names its profile by a name that has property `P`. */
  predicate IncludeNamesHave(ks: seq<LineKind>, P: string -> bool) {
    forall i :: 0 <= i < |ks| && ks[i].IncludeDirective? ==> P(ks[i].profile.name)
  }

  predicate NamesHave(ps: seq<EqProfile>, P: string -> bool) {
    forall i :: 0 <= i < |ps| ==> P(ps[i].name)
  }

  /** A reload stores only the names the include lines give: a property all of them have, every stored name has. */
  lemma {:induction false} LoadKeepsNames(c: Config, ks: seq<LineKind>, pg: GainParser, P: string -> bool)
    requires NamesHave(c.profiles, P) && IncludeNamesHave(ks, P)
    decreases |ks|
    ensures NamesHave(Load(c, ks, pg).config.profiles, P)
  {
    if ks != [] {
      var next := Step(c, ks[0], pg);
      if next.status.Success? {
        assert IncludeNamesHave(ks[1..], P) by {
          forall i | 0 <= i < |ks| - 1 && ks[1..][i].IncludeDirective? ensures P(ks[1..][i].profile.name) {
            assert ks[1..][i] == ks[i + 1];
          }
        }
        LoadKeepsNames(next.config, ks[1..], pg, P);
      }
    }
  }

  /** Every profile a reload stores has a trimmed name. */
  lemma ParsedNamesTrimmed(lines: seq<string>, pg: GainParser)
    ensures NamesTrimmed(Parse(lines, pg).config.profiles)
  {
    var ks := Kinds(lines);
    assert IncludeNamesHave(ks, Trimmed) by {
      forall i | 0 <= i < |ks| && ks[i].IncludeDirective? ensures Trimmed(ks[i].profile.name) {
        assert ks[i] == Classify(lines[i]);
      }
    }
    LoadKeepsNames(EmptyConfig, ks, pg, Trimmed);
    var ps := Parse(lines, pg).config.profiles;
    assert forall i :: 0 <= i < |ps| ==> Trimmed(ps[i].name);
  }

  predicate NoLineBreak(s: string) {
    '\n' !in s
  }

  /** No profile name holds a newline. */
  predicate NoLineBreaks(ps: seq<EqProfile>) {
    forall i :: 0 <= i < |ps| ==> NoLineBreak(ps[i].name)
  }

  /** A directive line without a newline gives a profile name without one. */
  lemma DirectiveNoLineBreak(clean: string, enabled: bool, line: string)
    requires '\n' !in clean
    ensures Directive(clean, enabled, line).IncludeDirective? ==> '\n' !in Directive(clean, enabled, line).profile.name
  {
    if !StartsWithCI(clean, "Preamp:") && StartsWithCI(clean, "Include:") {
      var colon := IndexOf(clean, ':');
      var rest := clean[colon + 1..];
      assert Directive(clean, enabled, line).profile.name == Trim(rest);
      SuffixKeepsAbsent(clean, colon + 1, '\n');
      TrimKeepsAbsent(rest, '\n');
    }
  }

  /** A line without a newline gives a profile name without one. */
  lemma ClassifyNoLineBreak(raw: string)
    requires '\n' !in raw
    ensures Classify(raw).IncludeDirective? ==> '\n' !in Classify(raw).profile.name
  {
    TrimKeepsAbsent(raw, '\n');
    var line := Trim(raw);
    if line != [] {
      var commented := line[0] == '#';
      if commented {
        assert forall j :: 0 <= j < |line[1..]| ==> line[1..][j] == line[j + 1];
        TrimKeepsAbsent(line[1..], '\n');
      }
      DirectiveNoLineBreak(if commented then Trim(line[1..]) else line, !commented, line);
    }
  }

  /** Lines without newlines, as a line-by-line read yields them, give profile names without newlines. */
  lemma ParsedNoLineBreaks(lines: seq<string>, pg: GainParser)
    requires forall i :: 0 <= i < |lines| ==> '\n' !in lines[i]
    ensures NoLineBreaks(Parse(lines, pg).config.profiles)
  {
    var ks := Kinds(lines);
    assert IncludeNamesHave(ks, NoLineBreak) by {
      forall i | 0 <= i < |ks| && ks[i].IncludeDirective? ensures NoLineBreak(ks[i].profile.name) {
        assert ks[i] == Classify(lines[i]);
        ClassifyNoLineBreak(lines[i]);
      }
    }
    LoadKeepsNames(EmptyConfig, ks, pg, NoLineBreak);
  }

  /** When no profile name holds a newline, no line a save writes does. */
  lemma RenderNoLineBreaks(c: Config)
    requires NoLineBreaks(c.profiles)
    ensures forall i :: 0 <= i < |Render(c)| ==> '\n' !in Render(c)[i]
  {
    forall i | 1 <= i < |Render(c)| ensures '\n' !in Render(c)[i] {
      assert NoLineBreak(c.profiles[i - 1].name);
    }
  }

  /**
   * A file that reloads without error, saved back, reloads to the same
   * state, provided the gain parser reads the formatted gain back.
   */
  lemma ReparseRendered(lines: seq<string>, c: Config, pg: GainParser)
    requires Parse(lines, pg) == Loaded(c, Success(()))
    requires pg(FormatGain(c.preamp.gain)) == Some(c.preamp.gain)
    ensures Parse(Render(c), pg) == Parse(lines, pg)
  {
    ParsedNamesTrimmed(lines, pg);
    RenderParseRoundTrip(c, pg);
  }

  // ---------------------------------------------------------------------
  // An independent account of a reload: where it stops and what it keeps

  /** The position of the first line that ends a reload with an error, or `|ks|` when none does. */
  function FailureIndex(ks: seq<LineKind>, pg: GainParser): (n: nat)
    ensures n <= |ks|
  {
    if ks == [] then 0
    else if LineStatus(ks[0], pg).Failure? then 0
    else 1 + FailureIndex(ks[1..], pg)
  }

  /** `FailureIndex` is the first line that fails: every line before it is accepted. */
  lemma {:induction false} FailureIndexFirst(ks: seq<LineKind>, pg: GainParser)
    decreases |ks|
    ensures forall j :: 0 <= j < FailureIndex(ks, pg) ==> LineStatus(ks[j], pg).Success?
    ensures FailureIndex(ks, pg) < |ks| ==> LineStatus(ks[FailureIndex(ks, pg)], pg).Failure?
  {
    if ks != [] && LineStatus(ks[0], pg).Success? {
      FailureIndexFirst(ks[1..], pg);
      assert forall j :: 1 <= j < |ks| ==> ks[j] == ks[1..][j - 1];
    }
  }

  /** The profiles of the include lines among `ks`, in order. */
  function IncludesOf(ks: seq<LineKind>): seq<EqProfile> {
    if ks == [] then []
    else (if ks[0].IncludeDirective? then [ks[0].profile] else []) + IncludesOf(ks[1..])
  }

  /** The preamp after the preamp lines among `ks` are applied in order, a later one overriding an earlier one. */
  function PreampAfter(p: PreampState, ks: seq<LineKind>, pg: GainParser): PreampState
    decreases |ks|
  {
    if ks == [] then p else PreampAfter(ApplyPreamp(p, ks[0], pg), ks[1..], pg)
  }

  lemma {:induction false} IncludesOfConcat(a: seq<LineKind>, b: seq<LineKind>)
    decreases |a|
    ensures IncludesOf(a + b) == IncludesOf(a) + IncludesOf(b)
  {
    if a != [] {
      assert (a + b)[0] == a[0];
      assert (a + b)[1..] == a[1..] + b;
      IncludesOfConcat(a[1..], b);
    } else {
      assert a + b == b;
    }
  }

  lemma IncludesOfPrefix(ks: seq<LineKind>, m: nat)
    requires m < |ks|
    ensures IncludesOf(ks[..m + 1]) == IncludesOf([ks[0]]) + IncludesOf(ks[1..][..m])
  {
    assert ks[..m + 1] == [ks[0]] + ks[1..][..m];
    IncludesOfConcat([ks[0]], ks[1..][..m]);
  }

  /** An accepted first line: the reload goes on from the state it leaves. */
  lemma LoadAccepted(c: Config, ks: seq<LineKind>, pg: GainParser)
    requires ks != [] && Step(c, ks[0], pg).status.Success?
    ensures Load(c, ks, pg) == Load(Step(c, ks[0], pg).config, ks[1..], pg)
  {
  }

  /** An accepted first line moves the first failing line one further. */
  lemma FailureIndexAccepted(c: Config, ks: seq<LineKind>, pg: GainParser)
    requires ks != [] && Step(c, ks[0], pg).status.Success?
    ensures FailureIndex(ks, pg) == FailureIndex(ks[1..], pg) + 1
  {
  }

  /** One line adds its include, if any, after the profiles read so far. */
  lemma StepProfiles(c: Config, k: LineKind, pg: GainParser)
    ensures Step(c, k, pg).config.profiles == c.profiles + IncludesOf([k])
  {
    assert [k][1..] == [];
  }

  /** One accepted line: its include, if any, comes before those of the lines after it. */
  lemma LoadProfilesStep(c: Config, ks: seq<LineKind>, pg: GainParser)
    requires ks != [] && Step(c, ks[0], pg).status.Success?
    requires Load(Step(c, ks[0], pg).config, ks[1..], pg).config.profiles
          == Step(c, ks[0], pg).config.profiles + IncludesOf(ks[1..][..FailureIndex(ks[1..], pg)])
    ensures Load(c, ks, pg).config.profiles == c.profiles + IncludesOf(ks[..FailureIndex(ks, pg)])
  {
    var m := FailureIndex(ks[1..], pg);
    LoadAccepted(c, ks, pg);
    FailureIndexAccepted(c, ks, pg);
    StepProfiles(c, ks[0], pg);
    IncludesOfPrefix(ks, m);
    ConcatAssoc(c.profiles, IncludesOf([ks[0]]), IncludesOf(ks[1..][..m]));
  }

  /** A reload keeps the includes before the first bad line, in order. */
  lemma {:induction false} LoadProfilesSummary(c: Config, ks: seq<LineKind>, pg: GainParser)
    decreases |ks|
    ensures Load(c, ks, pg).config.profiles == c.profiles + IncludesOf(ks[..FailureIndex(ks, pg)])
  {
    if ks == [] {
      assert c.profiles + [] == c.profiles;
    } else if Step(c, ks[0], pg).status.Failure? {
      assert ks[..0] == [];
      assert c.profiles + [] == c.profiles;
    } else {
      LoadProfilesSummary(Step(c, ks[0], pg).config, ks[1..], pg);
      LoadProfilesStep(c, ks, pg);
    }
  }

  /** A reload reports the first bad line's error, or success when there is none. */
  lemma {:induction false} LoadStatusSummary(c: Config, ks: seq<LineKind>, pg: GainParser)
    decreases |ks|
    ensures FailureIndex(ks, pg) == |ks| ==> Load(c, ks, pg).status == Success(())
    ensures FailureIndex(ks, pg) < |ks| ==> Load(c, ks, pg).status == LineStatus(ks[FailureIndex(ks, pg)], pg)
  {
    if ks != [] {
      var next := Step(c, ks[0], pg);
      if next.status.Success? {
        LoadStatusSummary(next.config, ks[1..], pg);
      }
    }
  }

  /**
   * A reload applies every preamp line up to and including the first bad
   * line: a preamp line whose gain does not parse still sets the flag its
   * `#` marker gives.
   */
  lemma {:induction false} LoadPreampSummary(c: Config, ks: seq<LineKind>, pg: GainParser)
    decreases |ks|
    ensures FailureIndex(ks, pg) == |ks| ==> Load(c, ks, pg).config.preamp == PreampAfter(c.preamp, ks, pg)
    ensures FailureIndex(ks, pg) < |ks| ==>
              Load(c, ks, pg).config.preamp == PreampAfter(c.preamp, ks[..FailureIndex(ks, pg) + 1], pg)
  {
    if ks != [] {
      var next := Step(c, ks[0], pg);
      if next.status.Failure? {
        assert ks[..1] == [ks[0]];
        assert ks[..1][1..] == [];
      } else {
        LoadPreampSummary(next.config, ks[1..], pg);
        var m := FailureIndex(ks[1..], pg);
        if m < |ks[1..]| {
          assert ks[..m + 2][0] == ks[0];
          assert ks[..m + 2][1..] == ks[1..][..m + 1];
        }
      }
    }
  }

  /**
   * A reload keeps the includes before the first bad line, applies every
   * preamp line up to and including the bad one, and reports the bad
   * line's error, or success when there is none.
   */
  lemma LoadSummary(c: Config, ks: seq<LineKind>, pg: GainParser)
    ensures Load(c, ks, pg).config.profiles == c.profiles + IncludesOf(ks[..FailureIndex(ks, pg)])
    ensures FailureIndex(ks, pg) == |ks| ==>
              Load(c, ks, pg).status == Success(()) && Load(c, ks, pg).config.preamp == PreampAfter(c.preamp, ks, pg)
    ensures FailureIndex(ks, pg) < |ks| ==>
              Load(c, ks, pg).status == LineStatus(ks[FailureIndex(ks, pg)], pg) &&
              Load(c, ks, pg).config.preamp == PreampAfter(c.preamp, ks[..FailureIndex(ks, pg) + 1], pg)
  {
    LoadProfilesSummary(c, ks, pg);
    LoadStatusSummary(c, ks, pg);
    LoadPreampSummary(c, ks, pg);
  }

  /** When no line is a preamp line, a reload leaves the preamp as it found it: gain 0, disabled. */
  lemma NoPreampKeepsDefault(lines: seq<string>, pg: GainParser)
    requires forall i :: 0 <= i < |lines| ==> !Classify(lines[i]).PreampDirective?
    ensures Parse(lines, pg).config.preamp == DefaultPreamp
  {
    var ks := Kinds(lines);
    LoadSummary(EmptyConfig, ks, pg);
    var n := FailureIndex(ks, pg);
    var applied := if n < |ks| then ks[..n + 1] else ks;
    assert forall i :: 0 <= i < |applied| ==> !applied[i].PreampDirective?;
    PreampAfterNoPreamp(DefaultPreamp, applied, pg);
  }

  lemma {:induction false} PreampAfterNoPreamp(p: PreampState, ks: seq<LineKind>, pg: GainParser)
    requires forall i :: 0 <= i < |ks| ==> !ks[i].PreampDirective?
    decreases |ks|
    ensures PreampAfter(p, ks, pg) == p
  {
    if ks != [] {
      assert !ks[0].PreampDirective?;
      assert forall i :: 0 <= i < |ks| - 1 ==> ks[1..][i] == ks[i + 1];
      PreampAfterNoPreamp(p, ks[1..], pg);
    }
  }

  /** A line means nothing exactly when it is whitespace only. */
  lemma BlankLine(raw: string)
    ensures Classify(raw) == Blank <==> AllSpace(raw)
  {
    TrimEmptyIffSpace(raw);
  }

  /** A blank line between two runs of lines changes nothing about loading them. */
  lemma LoadBlankIgnored(c: Config, ka: seq<LineKind>, kb: seq<LineKind>, pg: GainParser)
    ensures Load(c, ka + [Blank] + kb, pg) == Load(c, ka + kb, pg)
  {
    assert ka + [Blank] + kb == ka + ([Blank] + kb);
    LoadConcat(c, ka, [Blank] + kb, pg);
    LoadConcat(c, ka, kb, pg);
    assert ([Blank] + kb)[0] == Blank && ([Blank] + kb)[1..] == kb;
  }

  /** A blank line anywhere in a file changes nothing about the reload. */
  lemma BlankLineIgnored(c: Config, a: seq<string>, raw: string, b: seq<string>, pg: GainParser)
    requires AllSpace(raw)
    ensures ParseFrom(c, a + [raw] + b, pg) == ParseFrom(c, a + b, pg)
  {
    BlankLine(raw);
    KindsConcat(a + [raw], b);
    KindsConcat(a, [raw]);
    KindsSingle(raw);
    KindsConcat(a, b);
    LoadBlankIgnored(c, Kinds(a), Kinds(b), pg);
  }

  /** A preamp line whose gain parses overrides every earlier preamp line. */
  lemma LoadLaterPreampWins(c: Config, ks: seq<LineKind>, k: LineKind, pg: GainParser)
    requires Load(c, ks, pg).status.Success?
    requires k.PreampDirective? && pg(k.gainText).Some?
    ensures Load(c, ks + [k], pg).status == Success(())
    ensures Load(c, ks + [k], pg).config.preamp == PreampState(pg(k.gainText).value, k.enabled)
  {
    LoadConcat(c, ks, [k], pg);
    assert [k][1..] == [];
  }

  /** The same, stated on the lines of a file. */
  lemma LaterPreampWins(c: Config, lines: seq<string>, raw: string, pg: GainParser)
    requires ParseFrom(c, lines, pg).status.Success?
    requires Classify(raw).PreampDirective? && pg(Classify(raw).gainText).Some?
    ensures ParseFrom(c, lines + [raw], pg).status == Success(())
    ensures ParseFrom(c, lines + [raw], pg).config.preamp
         == PreampState(pg(Classify(raw).gainText).value, Classify(raw).enabled)
  {
    var k := Classify(raw);
    assert Kinds(lines + [raw]) == Kinds(lines) + [k];
    LoadLaterPreampWins(c, Kinds(lines), k, pg);
  }

  // ---------------------------------------------------------------------
  // A gain parser that reads back what the save writes

  predicate AllDigits(s: string) {
    forall i :: 0 <= i < |s| ==> '0' <= s[i] <= '9'
  }

  /** The number a string of decimal digits denotes. */
  function DigitsValue(s: string): nat
    requires AllDigits(s)
  {
    if s == [] then 0 else DigitsValue(s[..|s| - 1]) * 10 + ((s[|s| - 1] as int) - ('0' as int))
  }

  /** An unsigned decimal with at most one fractional digit, read as tenths. */
  function ParseTenths(body: string): Option<nat> {
    var k := IndexOf(body, '.');
    if k < 0 then
      if body != [] && AllDigits(body) then Some(DigitsValue(body) * 10) else None
    else
      var whole, frac := body[..k], body[k + 1..];
      if whole != [] && AllDigits(whole) && |frac| == 1 && AllDigits(frac)
      then Some(DigitsValue(whole) * 10 + DigitsValue(frac))
      else None
  }

  /**
   * The decimal numbers the save can write, read as tenths of a decibel: an
   * optional minus, whole decibels and at most one fractional digit.
   */
  function ParseGainText(s: string): Option<Gain> {
    if s != [] && s[0] == '-' then
      match ParseTenths(s[1..])
      case Some(v) => Some(-(v as int))
      case None => None
    else
      match ParseTenths(s)
      case Some(v) => Some(v)
      case None => None
  }

  /** Reading the digits of `n` gives `n`. */
  lemma {:induction false} DigitsValueNatText(n: nat)
    decreases n
    ensures DigitsValue(NatText(n)) == n
  {
    var s := NatText(n);
    if n >= 10 {
      DigitsValueNatText(n / 10);
      assert s[..|s| - 1] == NatText(n / 10);
    } else {
      assert s[..|s| - 1] == [];
    }
  }

  /** A decimal `whole.d` splits at its point into the whole part and the digit. */
  lemma SplitDecimal(body: string, whole: string, d: char)
    requires AllDigits(whole) && body == whole + "." + [d]
    ensures IndexOf(body, '.') == |whole|
    ensures body[..|whole|] == whole && body[|whole| + 1..] == [d]
  {
    assert '.' !in whole;
    assert body[|whole|] == '.' && body[..|whole|] == whole;
  }

  /** An unsigned decimal with one fractional digit reads as that many tenths. */
  lemma ParseDecimal(body: string, whole: string, d: char)
    requires whole != [] && AllDigits(whole) && '0' <= d <= '9' && body == whole + "." + [d]
    ensures ParseTenths(body) == Some(DigitsValue(whole) * 10 + DigitsValue([d]))
  {
    SplitDecimal(body, whole, d);
  }

  /** A leading minus negates what the rest reads as. */
  lemma ParseSigned(body: string, v: nat)
    requires body != [] && body[0] != '-' && ParseTenths(body) == Some(v)
    ensures ParseGainText(body) == Some(v)
    ensures ParseGainText("-" + body) == Some(-(v as int))
  {
    assert ("-" + body)[1..] == body;
  }

  lemma DigitValue(d: nat)
    requires d < 10
    ensures DigitsValue([DigitChar(d)]) == d
  {
    assert [DigitChar(d)][..0] == [];
  }

  /** The unsigned part of a formatted gain reads as the gain's magnitude. */
  lemma ParseMagnitude(m: nat) returns (body: string)
    ensures body != [] && body[0] != '-'
    ensures body == NatText(m / 10) + "." + [DigitChar(m % 10)]
    ensures ParseTenths(body) == Some(m)
  {
    var whole := NatText(m / 10);
    body := whole + "." + [DigitChar(m % 10)];
    DigitsValueNatText(m / 10);
    DigitValue(m % 10);
    ParseDecimal(body, whole, DigitChar(m % 10));
  }

  /** A formatted gain is a minus for a negative gain, then the formatted magnitude. */
  lemma FormatGainSign(g: Gain, body: string)
    requires body == NatText((if g < 0 then -g else g) / 10) + "." + [DigitChar((if g < 0 then -g else g) % 10)]
    ensures g < 0 ==> FormatGain(g) == "-" + body
    ensures g >= 0 ==> FormatGain(g) == body
  {
    if g >= 0 {
      assert "" + body == body;
    }
  }

  /** The formatted gain parses back to the gain itself. */
  lemma ParseFormatGain(g: Gain)
    ensures ParseGainText(FormatGain(g)) == Some(g)
  {
    var m := if g < 0 then -g else g;
    var body := ParseMagnitude(m);
    ParseSigned(body, m);
    FormatGainSign(g, body);
  }

  /** With this parser, saving and reloading gives the state back exactly when every profile name is trimmed. */
  lemma RenderParseRoundTripWithParser(c: Config)
    ensures Parse(Render(c), ParseGainText) == Loaded(c, Success(())) <==> NamesTrimmed(c.profiles)
  {
    ParseFormatGain(c.preamp.gain);
    RenderParseRoundTrip(c, ParseGainText);
  }
}
