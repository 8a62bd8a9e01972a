/**
  The identifiers SystemID.raspberrypi_cpu gives for sample /proc/cpuinfo
  texts.
 */
module CpuInfoExamples {
  import opened Wrappers
  import opened CpuInfo

  // Lines as /proc/cpuinfo writes them: key, tabs, ": ", value.
  const HardwareLine := "Hardware" + "\t" + ":" + " " + "BCM2708"
  const RevisionLine := "Revision" + "\t" + ":" + " " + "000e"
  const SerialLine := "Serial" + "\t\t" + ":" + " " + "00000000ae463475"

  /** A line whose first letter differs from the key's, ignoring case, never matches. */
  lemma OtherKey(key: string, line: string)
    requires |key| > 0 && |line| > 0 && Lower(line[0]) != Lower(key[0])
    ensures MatchLine(key, line).None?
  {
    if |line| >= |key| {
      assert line[..|key|][0] == line[0];
    }
  }

  lemma HardwareLineMatches()
    ensures MatchLine("Hardware", HardwareLine) == Some("BCM2708")
  {
    assert AllWord("BCM2708") && AllSpace("\t") && AllSpace(" ");
    LineMatches("Hardware", "\t", " ", "BCM2708");
  }

  lemma ThreeLines(a: string, b: string, c: string)
    requires '\n' !in a && '\n' !in b && '\n' !in c
    ensures Lines(a + "\n" + b + "\n" + c + "\n") == [a, b, c, ""]
  {
    assert a + "\n" + b + "\n" + c + "\n" == a + ['\n'] + (b + ['\n'] + (c + ['\n'] + ""));
    SplitCons(a, '\n', b + ['\n'] + (c + ['\n'] + ""));
    SplitCons(b, '\n', c + ['\n'] + "");
    SplitCons(c, '\n', "");
  }

  const Text := HardwareLine + "\n" + RevisionLine + "\n" + SerialLine + "\n"

  lemma TextLines()
    ensures Lines(Text) == [HardwareLine, RevisionLine, SerialLine, ""]
  {
    ThreeLines(HardwareLine, RevisionLine, SerialLine);
  }

  lemma TextHardware()
    ensures Search("Hardware", Text) == Some("BCM2708")
  {
    TextLines();
    HardwareLineMatches();
    FirstMatchAt("Hardware", Lines(Text), 0);
  }

  lemma TextRevision()
    ensures Search("Revision", Text) == Some("000e")
  {
    TextLines();
    OtherKey("Revision", HardwareLine);
    assert AllWord("000e") && AllSpace("\t") && AllSpace(" ");
    LineMatches("Revision", "\t", " ", "000e");
    FirstMatchAt("Revision", Lines(Text), 1);
  }

  lemma SerialLineMatches()
    ensures MatchLine("Serial", SerialLine) == Some("00000000ae463475")
  {
    SerialWord();
    assert AllSpace("\t\t");
    assert AllSpace(" ");
    LineMatches("Serial", "\t\t", " ", "00000000ae463475");
  }

  lemma SerialWord()
    ensures AllWord("00000000ae463475")
  {
  }

  lemma LineMatches(key: string, ws1: string, ws2: string, word: string)
    requires |ws1| > 0 && AllSpace(ws1) && |ws2| > 0 && AllSpace(ws2)
    requires |word| > 0 && AllWord(word)
    ensures MatchLine(key, key + ws1 + ":" + ws2 + word) == Some(word)
  {
    assert ":" == [':'];
    MatchLineComplete(key, key, ws1, ws2, word);
  }

  lemma TextSerial()
    ensures Search("Serial", Text) == Some("00000000ae463475")
  {
    TextLines();
    OtherKey("Serial", HardwareLine);
    OtherKey("Serial", RevisionLine);
    SerialLineMatches();
    FirstMatchThird("Serial", Lines(Text));
  }

  lemma FirstMatchThird(key: string, lines: seq<string>)
    requires |lines| >= 3 && MatchLine(key, lines[0]).None? && MatchLine(key, lines[1]).None?
    requires MatchLine(key, lines[2]).Some?
    ensures FirstMatch(key, lines) == MatchLine(key, lines[2])
  {
    FirstMatchAt(key, lines, 2);
  }

  lemma SerialStripped()
    ensures Strip("00000000ae463475") == "ae463475"
  {
    StripExact("00000000", "ae463475", "");
    assert "00000000ae463475" == "00000000" + "ae463475" + "";
  }

  lemma Revision000e()
    ensures "000e" in RpiRevisions && RpiRevisions["000e"] == "B 2.0 512MB (Q4 2012 Sony)"
  {
    DictOfAt(RevisionEntries, 10);
  }

  lemma TextIsRaspberryPi()
    ensures IsRaspberryPi(Text)
  {
    TextHardware();
  }

  lemma TextModel()
    ensures ModelOf(Text) == "B 2.0 512MB (Q4 2012 Sony)"
  {
    TextRevision();
    Revision000e();
  }

  lemma TextSerialField()
    ensures SerialOf(Text) == "ae463475"
  {
    TextSerial();
    SerialStripped();
  }

  lemma FullExample()
    ensures RaspberrypiCpu(Text) == Some("RaspberryPi/B 2.0 512MB (Q4 2012 Sony)/ae463475")
  {
    TextIsRaspberryPi();
    RaspberrypiCpuShape(Text);
    TextModel();
    TextSerialField();
    FullExampleSpelling(ModelOf(Text), SerialOf(Text));
  }

  lemma FullExampleSpelling(model: string, serial: string)
    requires model == "B 2.0 512MB (Q4 2012 Sony)" && serial == "ae463475"
    ensures "RaspberryPi" + "/" + model + "/" + serial == "RaspberryPi/B 2.0 512MB (Q4 2012 Sony)/ae463475"
  {
  }

  // ---------------------------------------------------------------------
  // A board without a Revision line

  const TextNoRevision := HardwareLine + "\n" + SerialLine + "\n"

  lemma TwoLines(a: string, b: string)
    requires '\n' !in a && '\n' !in b
    ensures Lines(a + "\n" + b + "\n") == [a, b, ""]
  {
    assert a + "\n" + b + "\n" == a + ['\n'] + (b + ['\n'] + "");
    SplitCons(a, '\n', b + ['\n'] + "");
    SplitCons(b, '\n', "");
  }

  lemma NoRevisionLines()
    ensures Lines(TextNoRevision) == [HardwareLine, SerialLine, ""]
  {
    TwoLines(HardwareLine, SerialLine);
  }

  lemma NoRevisionFields()
    ensures IsRaspberryPi(TextNoRevision)
    ensures ModelOf(TextNoRevision) == "unknown_model"
  {
    var lines := [HardwareLine, SerialLine, ""];
    NoRevisionLines();
    HardwareLineMatches();
    FirstMatchAt("Hardware", lines, 0);
    OtherKey("Revision", HardwareLine);
    OtherKey("Revision", SerialLine);
    FirstMatchNone("Revision", lines);
  }

  lemma NoRevisionSerial()
    ensures SerialOf(TextNoRevision) == "ae463475"
  {
    NoRevisionLines();
    OtherKey("Serial", HardwareLine);
    SerialLineMatches();
    FirstMatchAt("Serial", [HardwareLine, SerialLine, ""], 1);
    SerialStripped();
  }

  lemma NoRevisionExample()
    ensures RaspberrypiCpu(TextNoRevision) == Some("RaspberryPi/unknown_model/ae463475")
  {
    NoRevisionFields();
    NoRevisionSerial();
    RaspberrypiCpuShape(TextNoRevision);
    NoRevisionSpelling(ModelOf(TextNoRevision), SerialOf(TextNoRevision));
  }

  lemma NoRevisionSpelling(model: string, serial: string)
    requires model == "unknown_model" && serial == "ae463475"
    ensures "RaspberryPi" + "/" + model + "/" + serial == "RaspberryPi/unknown_model/ae463475"
  {
  }

  // ---------------------------------------------------------------------
  // A revision code that is not in the table

  const UnknownRevisionLine := "Revision" + "\t" + ":" + " " + "fefe"
  const TextUnknownRevision := HardwareLine + "\n" + UnknownRevisionLine + "\n" + SerialLine + "\n"

  lemma UnknownRevisionLines()
    ensures Lines(TextUnknownRevision) == [HardwareLine, UnknownRevisionLine, SerialLine, ""]
  {
    ThreeLines(HardwareLine, UnknownRevisionLine, SerialLine);
  }

  lemma UnknownRevisionHardware()
    ensures IsRaspberryPi(TextUnknownRevision)
  {
    UnknownRevisionLines();
    HardwareLineMatches();
    FirstMatchAt("Hardware", Lines(TextUnknownRevision), 0);
  }

  lemma UnknownRevisionModel()
    ensures ModelOf(TextUnknownRevision) == "model_" + "fefe"
  {
    UnknownRevisionLines();
    OtherKey("Revision", HardwareLine);
    assert AllWord("fefe") && AllSpace("\t") && AllSpace(" ");
    LineMatches("Revision", "\t", " ", "fefe");
    FirstMatchAt("Revision", Lines(TextUnknownRevision), 1);
    DictOfAbsent(RevisionEntries, "fefe");
  }

  lemma UnknownRevisionSerial()
    ensures SerialOf(TextUnknownRevision) == "ae463475"
  {
    UnknownRevisionLines();
    OtherKey("Serial", HardwareLine);
    OtherKey("Serial", UnknownRevisionLine);
    SerialLineMatches();
    FirstMatchThird("Serial", Lines(TextUnknownRevision));
    SerialStripped();
  }

  lemma UnknownRevisionExample()
    ensures RaspberrypiCpu(TextUnknownRevision) == Some("RaspberryPi/model_fefe/ae463475")
  {
    UnknownRevisionHardware();
    UnknownRevisionModel();
    UnknownRevisionSerial();
    RaspberrypiCpuShape(TextUnknownRevision);
    UnknownRevisionSpelling(ModelOf(TextUnknownRevision), SerialOf(TextUnknownRevision));
  }

  lemma UnknownRevisionSpelling(model: string, serial: string)
    requires model == "model_" + "fefe" && serial == "ae463475"
    ensures "RaspberryPi" + "/" + model + "/" + serial == "RaspberryPi/model_fefe/ae463475"
  {
  }

  // ---------------------------------------------------------------------
  // Machines that are not a Raspberry Pi

  /** An x86 machine: its Hardware tag is not a Raspberry Pi SoC. */
  const IntelLine := "Hardware" + "\t" + ":" + " " + "GenuineIntel"

  lemma OtherHardwareExample()
    ensures RaspberrypiCpu(IntelLine + "\n" + SerialLine + "\n").None?
  {
    OtherHardwareSearch();
  }

  lemma OtherHardwareSearch()
    ensures Search("Hardware", IntelLine + "\n" + SerialLine + "\n") == Some("GenuineIntel")
  {
    TwoLines(IntelLine, SerialLine);
    assert AllWord("GenuineIntel") && AllSpace("\t") && AllSpace(" ");
    LineMatches("Hardware", "\t", " ", "GenuineIntel");
    FirstMatchAt("Hardware", [IntelLine, SerialLine, ""], 0);
  }

  /** The tag is compared case-sensitively: 'bcm2708' is not recognised. */
  const LowerCaseTagLine := "Hardware" + "\t" + ":" + " " + "bcm2708"

  lemma LowerCaseTagExample()
    ensures RaspberrypiCpu(LowerCaseTagLine + "\n" + SerialLine + "\n").None?
  {
    LowerCaseTagSearch();
  }

  lemma LowerCaseTagSearch()
    ensures Search("Hardware", LowerCaseTagLine + "\n" + SerialLine + "\n") == Some("bcm2708")
  {
    TwoLines(LowerCaseTagLine, SerialLine);
    assert AllWord("bcm2708") && AllSpace("\t") && AllSpace(" ");
    LineMatches("Hardware", "\t", " ", "bcm2708");
    FirstMatchAt("Hardware", [LowerCaseTagLine, SerialLine, ""], 0);
  }

  /** The key is matched ignoring case: a 'hardware' line still names the board. */
  const LowerCaseKeyLine := "hardware" + "\t" + ":" + " " + "BCM2708"

  lemma LowerCaseKeyExample()
    ensures RaspberrypiCpu(LowerCaseKeyLine + "\n" + SerialLine + "\n").Some?
  {
    TwoLines(LowerCaseKeyLine, SerialLine);
    assert AllWord("BCM2708") && AllSpace("\t") && AllSpace(" ");
    assert SameIgnoringCase("hardware", "Hardware");
    assert ":" == [':'];
    MatchLineComplete("Hardware", "hardware", "\t", " ", "BCM2708");
    FirstMatchAt("Hardware", [LowerCaseKeyLine, SerialLine, ""], 0);
  }

  /** Without any Hardware line the machine is not taken for a Raspberry Pi. */
  lemma NoHardwareExample()
    ensures RaspberrypiCpu(RevisionLine + "\n" + SerialLine + "\n").None?
  {
    var lines := [RevisionLine, SerialLine, ""];
    TwoLines(RevisionLine, SerialLine);
    OtherKey("Hardware", RevisionLine);
    OtherKey("Hardware", SerialLine);
    FirstMatchNone("Hardware", lines);
  }
}
