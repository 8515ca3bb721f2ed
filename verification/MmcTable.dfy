/** The command table of `mmc.c`, split as the program splits it. */
module MmcTable {
  import opened Wrappers
  import opened MmcCommand

  const ENTRIES: seq<Entry> := [
    Entry("extcsd dump", -1), Entry("extcsd read", -1), Entry("extcsd write", -3),
    Entry("writeprotect get", -1), Entry("writeprotect set", -1), Entry("disable 512B emulation", -1),
    Entry("gp create", -6), Entry("enh_area set", -4), Entry("write_reliability set", -2),
    Entry("status get", -1), Entry("bootpart enable", -3), Entry("bootbus set", -4),
    Entry("bkops enable", -1), Entry("hwreset enable", -1), Entry("hwreset disable", -1),
    Entry("sanitize", -1), Entry("rpmb write-key", -1), Entry("rpmb read-counter", -1),
    Entry("rpmb read-block", -1), Entry("rpmb write-block", -1), Entry("cache enable", -1),
    Entry("cache disable", -1)
  ]

  /** The words of the verbs, as a user would type them. */
  const SPLIT: seq<seq<string>> := [
    ["extcsd", "dump"], ["extcsd", "read"], ["extcsd", "write"], ["writeprotect", "get"],
    ["writeprotect", "set"], ["disable", "512B", "emulation"], ["gp", "create"], ["enh_area", "set"],
    ["write_reliability", "set"], ["status", "get"], ["bootpart", "enable"], ["bootbus", "set"],
    ["bkops", "enable"], ["hwreset", "enable"], ["hwreset", "disable"], ["sanitize"],
    ["rpmb", "write-key"], ["rpmb", "read-counter"], ["rpmb", "read-block"], ["rpmb", "write-block"],
    ["cache", "enable"], ["cache", "disable"]
  ]

  // ---- facts about the words, one or two lines of the table at a time ----

  /** The sizes, and that only the sixth verb has three words. */
  lemma Shape(i: nat)
    requires i < 22
    ensures |ENTRIES| == |SPLIT| == 22 && 1 <= |SPLIT[i]| <= 3 && (|SPLIT[i]| == 3 <==> i == 5)
    ensures SPLIT[5] == ["disable", "512B", "emulation"] && ENTRIES[5].verb == "disable 512B emulation"
    ensures ENTRIES[i].nargs < 0
  {
  }

  lemma VerbIs(i: nat)
    requires i < 22
    ensures |ENTRIES| == |SPLIT| == 22
    ensures |SPLIT[i]| == 1 ==> SPLIT[i][0] == ENTRIES[i].verb
    ensures |SPLIT[i]| == 2 ==> SPLIT[i][0] + " " + SPLIT[i][1] == ENTRIES[i].verb
  {
    if i < 8 { FirstVerbs(i); } else if i < 16 { MiddleVerbs(i); } else { LastVerbs(i); }
    hide ENTRIES, SPLIT;
  }

  lemma FirstVerbs(i: nat)
    requires i < 8
    ensures |ENTRIES| == |SPLIT| == 22 && |SPLIT[i]| != 1
    ensures |SPLIT[i]| == 2 ==> SPLIT[i][0] + " " + SPLIT[i][1] == ENTRIES[i].verb
  {
  }

  lemma MiddleVerbs(i: nat)
    requires 8 <= i < 16
    ensures |ENTRIES| == |SPLIT| == 22 && (|SPLIT[i]| == 1 ==> SPLIT[i][0] == ENTRIES[i].verb)
    ensures |SPLIT[i]| == 2 ==> SPLIT[i][0] + " " + SPLIT[i][1] == ENTRIES[i].verb
  {
  }

  lemma LastVerbs(i: nat)
    requires 16 <= i < 22
    ensures |ENTRIES| == |SPLIT| == 22 && |SPLIT[i]| == 2
    ensures SPLIT[i][0] + " " + SPLIT[i][1] == ENTRIES[i].verb
  {
    if i < 19 { RpmbVerbs(i); }
  }

  lemma RpmbVerbs(i: nat)
    requires 16 <= i < 19
    ensures |ENTRIES| == |SPLIT| == 22 && |SPLIT[i]| == 2
    ensures SPLIT[i][0] + " " + SPLIT[i][1] == ENTRIES[i].verb
  {
  }

  lemma NoSpaceIn(i: nat)
    requires i < 22
    ensures |SPLIT| == 22 && NoSpaces(SPLIT[i])
  {
  }

  lemma NoDashes(i: nat)
    requires i < 22
    ensures |SPLIT| == 22 && forall x :: 0 <= x < |SPLIT[i]| ==> SPLIT[i][x] != "" && SPLIT[i][x][0] != '-'
    ensures SPLIT[i] != [] && SPLIT[i][0] != "help"
  {
  }

  function CharAt(w: string, k: nat): int { if k < |w| then w[k] as int else 0 }

  /** No longer, and the same in the five places where words of the table differ. */
  predicate Below(a: string, b: string) {
    && |a| <= |b| && CharAt(a, 0) == CharAt(b, 0)
    && (|a| > 1 ==> CharAt(a, 1) == CharAt(b, 1)) && (|a| > 4 ==> CharAt(a, 4) == CharAt(b, 4))
    && (|a| > 5 ==> CharAt(a, 5) == CharAt(b, 5)) && (|a| > 6 ==> CharAt(a, 6) == CharAt(b, 6))
  }

  lemma PrefixBelow(a: string, b: string)
    requires a <= b && a != ""
    ensures Below(a, b)
  {
    assert forall k :: 0 <= k < |a| ==> a[k] == b[k];
  }

  lemma FirstWords(i: nat, j: nat)
    requires i < 22 && j < 22
    ensures |SPLIT| == 22 && SPLIT[i] != [] && SPLIT[j] != [] && SPLIT[i][0] != ""
    ensures Below(SPLIT[i][0], SPLIT[j][0]) ==> SPLIT[i][0] == SPLIT[j][0]
  {
  }

  lemma SecondWords(i: nat, j: nat)
    requires i < 22 && j < 22 && i != j
    ensures |SPLIT| == 22 && SPLIT[i] != [] && SPLIT[j] != []
    ensures SPLIT[i][0] == SPLIT[j][0] ==>
              |SPLIT[i]| == |SPLIT[j]| == 2 && SPLIT[i][1] != "" && !Below(SPLIT[i][1], SPLIT[j][1])
  {
  }

  // ---- the table as it is stored ----

  /** Line `i` of the table: every verb is split right except the sixth. */
  lemma LineIs(i: nat)
    requires i < 22
    ensures |ENTRIES| == |SPLIT| == 22 && Words(ENTRIES[i].verb) == SPLIT[i]
    ensures Filled(ENTRIES)[i] == Command(Stored(SPLIT[i]), ENTRIES[i].nargs) && SPLIT[i] != []
    ensures Stored(SPLIT[i])[0] == SPLIT[i][0] && (i != 5 ==> Stored(SPLIT[i]) == SPLIT[i])
    ensures i == 5 ==> Stored(SPLIT[i]) == ["disable", "512B ", "emulation"]
  {
    hide ENTRIES, SPLIT, Words, Join, NoSpaces, Stored;
    Shape(i);
    VerbIs(i);
    NoSpaceIn(i);
    JoinShort(SPLIT[i]);
    StoredShort(SPLIT[i]);
    DisableIsStored();
    if i != 5 { WordsAre(ENTRIES[i].verb, SPLIT[i]); }
  }

  /** Two lines with the same first word are lines of two words that differ in the second, and neither
      second word begins the other. */
  lemma LinesApart(i: nat, j: nat)
    requires i < 22 && j < 22 && i != j
    ensures |SPLIT| == 22 && SPLIT[i] != [] && SPLIT[j] != []
    ensures SPLIT[i][0] <= SPLIT[j][0] ==>
              SPLIT[i][0] == SPLIT[j][0] && |SPLIT[i]| == |SPLIT[j]| == 2 && !(SPLIT[i][1] <= SPLIT[j][1])
  {
    hide SPLIT, Below;
    FirstWords(i, j);
    SecondWords(i, j);
    if SPLIT[i][0] <= SPLIT[j][0] {
      PrefixBelow(SPLIT[i][0], SPLIT[j][0]);
      SecondWordApart(SPLIT[i][1], SPLIT[j][1]);
    }
  }

  lemma SecondWordApart(a: string, b: string)
    requires a != "" && !Below(a, b)
    ensures !(a <= b)
  {
    if a <= b { PrefixBelow(a, b); }
  }

  lemma LinesGood(i: nat, j: nat)
    requires i < 22 && j < 22
    ensures |Filled(ENTRIES)| == 22 && Filled(ENTRIES)[i].words != []
    ensures i != j ==> !(Filled(ENTRIES)[i].words <= Filled(ENTRIES)[j].words)
  {
    hide ENTRIES, SPLIT, Filled, Words, Stored;
    Shape(i);
    LineIs(i);
    LineIs(j);
    if i != j { LinesApart(i, j); }
    StoredApart(Filled(ENTRIES)[i].words, Filled(ENTRIES)[j].words);
  }

  lemma NoHelpInLine(i: nat, x: nat)
    requires i < 22
    ensures |Filled(ENTRIES)| == 22 && (x < |Filled(ENTRIES)[i].words| ==> !("--help" <= Filled(ENTRIES)[i].words[x]))
  {
    hide ENTRIES, SPLIT, Filled, Words, Stored;
    Shape(i);
    LineIs(i);
    NoDashes(i);
    var words := Filled(ENTRIES)[i].words;
    if x < |words| {
      if i != 5 { assert words[x] == SPLIT[i][x]; }
      NotDashed(words[x]);
    }
  }

  lemma NotDashed(w: string)
    ensures w != "" && w[0] != '-' ==> !("--help" <= w)
  {
    assert "--help"[0] == '-';
  }

  /** The table of the source meets what the theorems about tables ask. */
  lemma TableIsGood()
    ensures GoodTable(Filled(ENTRIES)) && NoHelpWords(Filled(ENTRIES))
  {
    LinesGood(0, 0);
    hide ENTRIES, Filled;
    var table := Filled(ENTRIES);
    forall i, j | 0 <= i < 22 && 0 <= j < 22 ensures table[i].words != [] && (i != j ==> !(table[i].words <= table[j].words)) {
      LinesGood(i, j);
    }
    forall i, x | 0 <= i < 22 && 0 <= x < |table[i].words| ensures !("--help" <= table[i].words[x]) {
      NoHelpInLine(i, x);
    }
  }

  lemma StoredApart(a: seq<string>, b: seq<string>)
    requires a != [] && b != []
    ensures a <= b ==> a[0] == b[0] && (|a| > 1 ==> a[1] == b[1])
  {
  }

  /** Typed in full, no verb of the table has a rival, although one is stored with a space in a word. */
  lemma NoRivals(k: nat)
    requires k < 22
    ensures |ENTRIES| == |SPLIT| == 22 && |SPLIT[k]| == |Filled(ENTRIES)[k].words|
    ensures NoRival(Filled(ENTRIES), Filled(ENTRIES)[k], SPLIT[k])
  {
    hide ENTRIES, SPLIT, Filled, Words, Stored;
    var table := Filled(ENTRIES);
    Shape(k);
    LineIs(k);
    var c, typed := table[k], SPLIT[k];
    forall x, j | 0 <= x < |c.words| && 0 <= j < |table| ensures !Rival(c, table[j], typed, x) {
      LineIs(j);
      if j != k { LinesApart(k, j); }
      RivalMeans(c, table[j], typed, x);
    }
  }

  lemma RivalMeans(c: Command, other: Command, typed: seq<string>, x: nat)
    requires x < |c.words| == |typed| && other.words != [] && typed[0] == c.words[0]
    ensures Rival(c, other, typed, x) ==> other != c && typed[0] <= other.words[0] && (x == 0 ==> c.words[0] != other.words[0])
    ensures Rival(c, other, typed, x) && x > 0 ==> x < |other.words| && typed[x] <= other.words[x]
  {
    if Rival(c, other, typed, x) && x > 0 { assert other.words[..x][0] == c.words[..x][0]; }
  }

  /** Every command of the program, typed in full with enough arguments, runs. */
  lemma EveryVerbRuns(k: nat, rest: seq<string>)
    requires k < 22 && |rest| >= -ENTRIES[k].nargs && rest[0] != "--help"
    ensures |ENTRIES| == 22
    ensures Parse(Filled(ENTRIES), Words(ENTRIES[k].verb) + rest) == Run(Filled(ENTRIES)[k], rest)
  {
    hide ENTRIES, SPLIT, Filled, Words, Stored, Parse, NoRival, GoodTable, NoHelpWords;
    Shape(k);
    LineIs(k);
    NoDashes(k);
    TableIsGood();
    NoRivals(k);
    TypedInFull(ENTRIES, k, rest);
  }

  /** And with fewer arguments than it asks for, it is refused. */
  lemma TooFewArguments(k: nat, rest: seq<string>)
    requires k < 22 && |rest| < -ENTRIES[k].nargs && (rest != [] ==> rest[0] != "--help")
    ensures Parse(Filled(ENTRIES), Words(ENTRIES[k].verb) + rest) == WrongArguments
  {
    hide ENTRIES, SPLIT, Filled, Words, Stored, Parse, NoRival, GoodTable, NoHelpWords;
    Shape(k);
    LineIs(k);
    NoDashes(k);
    TableIsGood();
    NoRivals(k);
    WordsAbbreviate(ENTRIES[k].verb);
    ArgumentsCounted(Filled(ENTRIES), Filled(ENTRIES)[k], SPLIT[k], rest);
  }

  /** In particular the one whose middle word is stored with a space behind it. */
  lemma DisableRuns(rest: seq<string>)
    requires rest != [] && rest[0] != "--help"
    ensures Parse(Filled(ENTRIES), ["disable", "512B", "emulation"] + rest)
         == Run(Command(["disable", "512B ", "emulation"], -1), rest)
  {
    assert ENTRIES[5].nargs == -1;
    EveryVerbRuns(5, rest);
    LineIs(5);
    Shape(5);
  }
}
