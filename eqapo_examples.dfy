/**
 * Concrete config.txt contents and what a reload makes of them.
 */
module EqApoExamples {
  import opened Text
  import opened EqApoFormat

  /**
   * The lines a save writes for profiles A (on), B (off) and C (on), whose
   * names are trimmed.
   * The literal is a parameter fixed by `requires` rather than written in
   * the ensures, so that the verifier does not evaluate it eagerly.
   */
  lemma ProfileLinesABC(ps: seq<EqProfile>)
    requires ps == [EqProfile("A", true), EqProfile("B", false), EqProfile("C", true)]
    ensures ProfileLines(ps) == ["Include: A", "#Include: B", "Include: C"]
    ensures TrimNames(ps) == ps
  {
    var lines := ProfileLines(ps);
    assert lines[0] == IncludeText(ps[0]) == "Include: A";
    assert lines[1] == IncludeText(ps[1]) == "#Include: B";
    assert lines[2] == IncludeText(ps[2]) == "Include: C";
    TrimNamesFixed(ps);
    assert NamesTrimmed(ps);
  }

  /** Profiles come back in file order, each with the flag its `#` marker gives it. */
  lemma IncludeOrderKept(pg: GainParser)
    ensures Parse(["Include: A", "#Include: B", "Include: C"], pg)
         == Loaded(Config([EqProfile("A", true), EqProfile("B", false), EqProfile("C", true)], DefaultPreamp),
                   Success(()))
  {
    var ps := [EqProfile("A", true), EqProfile("B", false), EqProfile("C", true)];
    ProfileLinesABC(ps);
    ParseProfileLines(EmptyConfig, ps, pg);
  }

  lemma UnknownLineClassified()
    ensures Classify("Foo: bar") == Unrecognised("Foo: bar")
  {
    TrimUnique([], "Foo: bar", []);
    assert [] + "Foo: bar" + [] == "Foo: bar";
    assert !StartsWithCI("Foo: bar", "Preamp:");
    assert !StartsWithCI("Foo: bar", "Include:");
  }

  lemma IncludeLineKind(line: string, p: EqProfile)
    requires line == IncludeText(p) && Trimmed(p.name)
    ensures Classify(line) == IncludeDirective(p)
  {
    IncludeRoundTrip(p);
  }

  /** Loading stops at the first unrecognised line and keeps what came before it. */
  lemma LoadStopsAtUnknown(ks: seq<LineKind>, p: EqProfile, line: string, pg: GainParser)
    requires |ks| >= 2 && ks[0] == IncludeDirective(p) && ks[1] == Unrecognised(line)
    ensures Load(EmptyConfig, ks, pg) == Loaded(Config([p], DefaultPreamp), Failure(UnknownLine(line)))
  {
    var c1 := Config([p], DefaultPreamp);
    assert Load(EmptyConfig, ks, pg) == Load(c1, ks[1..], pg);
    assert ks[1..][0] == Unrecognised(line);
  }

  /**
   * What the lines of a file with an unknown line in the middle mean.
   * The literal is a parameter fixed by `requires` rather than written in
   * the ensures, so that the verifier does not evaluate it eagerly.
   */
  lemma UnknownLineFileKinds(lines: seq<string>)
    requires lines == ["Include: A", "Foo: bar", "Include: C"]
    ensures |Kinds(lines)| >= 2
    ensures Kinds(lines)[0] == IncludeDirective(EqProfile("A", true))
    ensures Kinds(lines)[1] == Unrecognised("Foo: bar")
  {
    IncludeLineKind(lines[0], EqProfile("A", true));
    UnknownLineClassified();
  }

  /** An unknown line stops the reload with its error; the include read before it stays, the one after it is never read. */
  lemma UnknownLineStops(pg: GainParser)
    ensures Parse(["Include: A", "Foo: bar", "Include: C"], pg)
         == Loaded(Config([EqProfile("A", true)], DefaultPreamp), Failure(UnknownLine("Foo: bar")))
  {
    var lines := ["Include: A", "Foo: bar", "Include: C"];
    UnknownLineFileKinds(lines);
    LoadStopsAtUnknown(Kinds(lines), EqProfile("A", true), "Foo: bar", pg);
  }

  /**
   * The line is already trimmed, and so is what follows its `#`.
   * The literal is a parameter fixed by `requires` rather than written in
   * the ensures, so that the verifier does not evaluate it eagerly.
   */
  lemma CommentedPreampTrimmed(line: string)
    requires line == "#Preamp: 2.0dB"
    ensures Trim(line) == line && line[0] == '#'
    ensures Trim(line[1..]) == "Preamp: 2.0dB"
  {
    TrimUnique([], line, []);
    assert [] + line + [] == line;
    var clean := line[1..];
    assert clean == "Preamp: 2.0dB";
    TrimUnique([], clean, []);
    assert [] + clean + [] == clean;
  }

  /**
   * `Preamp:` and `dB` removed and the rest trimmed leaves the number, even
   * with no space before the unit.
   * The literal is a parameter fixed by `requires` rather than written in
   * the ensures, so that the verifier does not evaluate it eagerly.
   */
  lemma GainTextWithoutSpace(clean: string)
    requires clean == "Preamp: 2.0dB"
    ensures StartsWithCI(clean, "Preamp:")
    ensures Trim(RemoveAllCI(RemoveAllCI(clean, "Preamp:"), "dB")) == "2.0"
  {
    assert clean == "Preamp:" + (" 2.0" + "dB");
    RemoveKeyAndUnit("Preamp:", "Preamp:", " 2.0", "dB", "dB");
    TrimUnique(" ", "2.0", []);
    assert " " + "2.0" + [] == " 2.0";
  }

  /** A commented preamp line without a space before `dB`: disabled, and the gain text is what is left. */
  lemma CommentedPreampLine()
    ensures Classify("#Preamp: 2.0dB") == PreampDirective(false, "2.0", "Preamp: 2.0dB")
  {
    var line := "#Preamp: 2.0dB";
    CommentedPreampTrimmed(line);
    GainTextWithoutSpace(line[1..]);
  }

  /**
   * The line is already trimmed, and so is what follows its `#`.
   * The literal is a parameter fixed by `requires` rather than written in
   * the ensures, so that the verifier does not evaluate it eagerly.
   */
  lemma LowerCasePreampTrimmed(line: string)
    requires line == "#preamp: -3.5 DB"
    ensures Trim(line) == line && line[0] == '#'
    ensures Trim(line[1..]) == "preamp:" + " " + "-3.5" + " " + "DB"
  {
    TrimFixed(line);
    var clean := line[1..];
    assert clean == "preamp:" + " " + "-3.5" + " " + "DB";
    TrimFixed(clean);
  }

  /** `Preamp:` and `dB` are matched in any case: a lower-case keyword and an upper-case unit still give the gain text. */
  lemma LowerCasePreampLine()
    ensures Classify("#preamp: -3.5 DB") == PreampDirective(false, "-3.5", "preamp: -3.5 DB")
  {
    var line := "#preamp: -3.5 DB";
    LowerCasePreampTrimmed(line);
    assert forall i :: 0 <= i < |"-3.5"| ==> GainChar("-3.5"[i]);
    DirectivePreampCI("preamp:", "-3.5", "DB", false, line);
  }
}
