/** The command line of `mmc.c`: commands are found by abbreviated words, and one that could mean
    another command is refused. */
module MmcCommand {
  import opened Wrappers

  // ---- splitting a verb into its words ----

  function Join(words: seq<string>): string {
    if words == [] then ""
    else if |words| == 1 then words[0]
    else words[0] + " " + Join(words[1..])
  }

  ghost predicate NoSpaces(words: seq<string>) {
    forall i :: 0 <= i < |words| ==> ' ' !in words[i]
  }

  lemma {:induction false} JoinSnoc(words: seq<string>, last: string)
    requires words != []
    ensures Join(words + [last]) == Join(words) + " " + last
  {
    if |words| > 1 {
      assert (words + [last])[1..] == words[1..] + [last];
      JoinSnoc(words[1..], last);
    } else {
      assert (words + [last])[1..] == [last];
    }
  }

  /** Where the first space is, or the end. */
  function FirstSpace(s: string): (n: nat)
    ensures n <= |s|
  {
    if s == "" || s[0] == ' ' then 0 else 1 + FirstSpace(s[1..])
  }

  lemma {:induction false} FirstSpaceIs(s: string, n: nat)
    requires n <= |s| && ' ' !in s[..n] && (n < |s| ==> s[n] == ' ')
    ensures FirstSpace(s) == n
  {
    if n > 0 {
      assert s[..n][0] == s[0] && s[1..][..n - 1] == s[..n][1..];
      FirstSpaceIs(s[1..], n - 1);
    }
  }

  /** There is only one way to split a verb. */
  lemma {:induction false} JoinInjective(a: seq<string>, b: seq<string>)
    requires a != [] && b != [] && NoSpaces(a) && NoSpaces(b) && Join(a) == Join(b)
    ensures a == b
  {
    var s := Join(a);
    JoinFirst(a);
    JoinFirst(b);
    assert a[0] == s[..FirstSpace(s)] == b[0];
    if |a| > 1 && |b| > 1 {
      assert Join(a[1..]) == s[|a[0]| + 1..] == Join(b[1..]);
      JoinInjective(a[1..], b[1..]);
      assert a == [a[0]] + a[1..] && b == [b[0]] + b[1..];
    }
  }

  lemma JoinFirst(words: seq<string>)
    requires words != [] && NoSpaces(words)
    ensures var s := Join(words);
            && words[0] == s[..FirstSpace(s)] && (|words| == 1 ==> s == words[0])
            && (|words| > 1 ==> |s| > |words[0]| && s[|words[0]| + 1..] == Join(words[1..]))
  {
    var s := Join(words);
    if |words| > 1 { assert s == words[0] + " " + Join(words[1..]); }
    assert s[..|words[0]|] == words[0];
    FirstSpaceIs(s, |words[0]|);
  }

  /** The words between the spaces, empty ones included. */
  function Words(s: string): (words: seq<string>)
    ensures words != []
    decreases |s|
  {
    var n := FirstSpace(s);
    if n == |s| then [s] else [s[..n]] + Words(s[n + 1..])
  }

  lemma {:induction false} FirstSpaceMeans(s: string)
    ensures ' ' !in s[..FirstSpace(s)] && (FirstSpace(s) < |s| ==> s[FirstSpace(s)] == ' ')
  {
    if s != "" && s[0] != ' ' {
      FirstSpaceMeans(s[1..]);
      var n := FirstSpace(s[1..]);
      assert s[..n + 1] == [s[0]] + s[1..][..n];
    }
  }

  lemma {:induction false} WordsJoin(s: string)
    ensures NoSpaces(Words(s)) && Join(Words(s)) == s
    decreases |s|
  {
    var n := FirstSpace(s);
    FirstSpaceMeans(s);
    if n == |s| {
      assert s[..n] == s;
    } else {
      WordsJoin(s[n + 1..]);
      assert s == s[..n] + " " + s[n + 1..];
    }
  }

  /** They are the only words without spaces that make up the verb. */
  lemma WordsAre(s: string, words: seq<string>)
    requires words != [] && NoSpaces(words) && Join(words) == s
    ensures Words(s) == words
  {
    WordsJoin(s);
    JoinInjective(words, Words(s));
  }

  function Spaces(s: string): nat {
    if s == "" then 0 else Spaces(s[1..]) + if s[0] == ' ' then 1 else 0
  }

  lemma {:induction false} SpacesFrom(s: string, n: nat)
    requires n <= |s| && ' ' !in s[..n]
    ensures Spaces(s) == Spaces(s[n..])
  {
    if n > 0 {
      assert s[..n][0] == s[0] && s[1..][..n - 1] == s[..n][1..] && s[1..][n - 1..] == s[n..];
      SpacesFrom(s[1..], n - 1);
    }
  }

  lemma {:induction false} WordCount(s: string)
    ensures |Words(s)| == Spaces(s) + 1
    decreases |s|
  {
    var n := FirstSpace(s);
    FirstSpaceMeans(s);
    SpacesFrom(s, n);
    if n < |s| {
      assert s[n..][1..] == s[n + 1..];
      WordCount(s[n + 1..]);
    }
  }

  /** What `split_command` makes of them: its count starts one too high after a space, so every word but
      the first and the last keeps the space behind it. */
  function Stored(words: seq<string>): (r: seq<string>)
    ensures |r| == |words|
  {
    seq(|words|, i requires 0 <= i < |words| => if 0 < i < |words| - 1 then words[i] + " " else words[i])
  }

  /** Words that are followed by another. */
  ghost function Followed(words: seq<string>): (r: seq<string>)
    ensures |r| == |words|
  {
    seq(|words|, i requires 0 <= i < |words| => if 0 < i then words[i] + " " else words[i])
  }

  /** `strndup`: at most `n` characters, fewer when the string ends before. */
  function Strndup(s: string, n: nat): string { s[..if n < |s| then n else |s|] }

  /** `split_command`, with the length it counts beside its two pointers. */
  method SplitCommand(cmd: string) returns (words: seq<string>)
    ensures words == Stored(Words(cmd))
  {
    hide Words, Followed, Stored, Strndup;
    words := [];
    var l, p, s := 0, 0, 0;
    ghost var done: seq<string> := [];
    assert cmd[0..] == cmd && [] + Words(cmd) == Words(cmd) && Followed(done) == [];
    while true
      invariant 0 <= s <= p <= |cmd| && ' ' !in cmd[s..p]
      invariant l == p - s + if words == [] then 0 else 1
      invariant words == Followed(done) && Words(cmd) == done + Words(cmd[s..])
      decreases |cmd| - p
    {
      if p < |cmd| && cmd[p] != ' ' {
        assert cmd[s..p + 1] == cmd[s..p] + [cmd[p]];
        p, l := p + 1, l + 1;
        continue;
      }
      WordAt(cmd, s, p, l);
      FollowedNext(done, cmd[s..p]);
      words := words + [Strndup(cmd[s..], l)];
      l := 0;
      if p == |cmd| { return; }
      Regroup(done, cmd[s..p], Words(cmd[p + 1..]));
      done := done + [cmd[s..p]];
      s := p + 1;
      p, l := p + 1, l + 1;
    }
  }

  lemma Regroup(a: seq<string>, w: string, b: seq<string>)
    ensures a + ([w] + b) == a + [w] + b
  {
  }

  lemma FollowedNext(done: seq<string>, w: string)
    ensures Followed(done + [w]) == Followed(done) + [if done == [] then w else w + " "]
    ensures Stored(done + [w]) == Followed(done) + [w]
  {
  }

  /** The next word ends at the next space, or with the string. */
  lemma WordAt(cmd: string, s: nat, p: nat, l: nat)
    requires s <= p <= |cmd| && ' ' !in cmd[s..p] && (p < |cmd| ==> cmd[p] == ' ') && l in {p - s, p - s + 1}
    ensures Words(cmd[s..]) == if p == |cmd| then [cmd[s..p]] else [cmd[s..p]] + Words(cmd[p + 1..])
    ensures Strndup(cmd[s..], l) == if p == |cmd| || l == p - s then cmd[s..p] else cmd[s..p] + " "
  {
    var t := cmd[s..];
    assert t[..p - s] == cmd[s..p];
    FirstSpaceIs(t, p - s);
    if p < |cmd| {
      assert t[p - s + 1..] == cmd[p + 1..];
      assert t[..p - s + 1] == cmd[s..p] + [cmd[p]];
    } else {
      assert t == cmd[s..p];
    }
  }

  /** The stored words are the words of the verb if and only if it has at most one space. */
  lemma SplitsRightIff(cmd: string)
    ensures NoSpaces(Stored(Words(cmd))) && Join(Stored(Words(cmd))) == cmd <==> Spaces(cmd) <= 1
  {
    WordCount(cmd);
    WordsJoin(cmd);
    var words := Words(cmd);
    if |words| <= 2 {
      assert Stored(words) == words;
    } else {
      assert Stored(words)[1][|words[1]|] == ' ';
    }
  }

  /** The one verb of the source that is stored with a space in a word. */
  lemma DisableIsStored()
    ensures Words("disable 512B emulation") == ["disable", "512B", "emulation"]
    ensures Stored(Words("disable 512B emulation")) == ["disable", "512B ", "emulation"]
  {
    hide Words;
    var words := ["disable", "512B", "emulation"];
    assert words[1..] == ["512B", "emulation"] && words[1..][1..] == ["emulation"];
    assert Join(words[1..][1..]) == "emulation";
    assert Join(words[1..]) == "512B emulation";
    assert Join(words) == "disable 512B emulation";
    WordsAre("disable 512B emulation", words);
    StoredThree("disable", "512B", "emulation");
    assert "512B" + " " == "512B ";
  }

  lemma StoredThree(a: string, b: string, c: string)
    ensures Stored([a, b, c]) == [a, b + " ", c]
  {
  }

  // ---- matching abbreviations ----

  /** A command with its words; `nargs` is exact, or a minimum when negative, or any when 999. */
  datatype Command = Command(words: seq<string>, nargs: int)

  /** A line of the table before it is split. */
  datatype Entry = Entry(verb: string, nargs: int)

  /** The table once the words are filled in. */
  function Filled(entries: seq<Entry>): (table: seq<Command>)
    ensures |table| == |entries|
  {
    seq(|entries|, i requires 0 <= i < |entries| => Command(Stored(Words(entries[i].verb)), entries[i].nargs))
  }

  /** The first loop of `parse_args`. */
  method FillCommands(entries: seq<Entry>) returns (table: seq<Command>)
    ensures table == Filled(entries)
  {
    hide Words, Stored;
    table := [];
    var k := 0;
    while k < |entries|
      invariant k <= |entries| && table == Filled(entries)[..k]
    {
      var words := SplitCommand(entries[k].verb);
      table := table + [Command(words, entries[k].nargs)];
      k := k + 1;
    }
  }

  /** The loop over both strings: whether `s1` ended first. */
  method Abbreviates(s1: string, s2: string) returns (r: bool)
    ensures r == (s1 <= s2)
  {
    var k := 0;
    while k < |s1| && k < |s2| && s1[k] == s2[k]
      invariant k <= |s1| && k <= |s2| && s1[..k] == s2[..k]
    {
      k := k + 1;
    }
    r := k == |s1|;
  }

  /** How many leading words of the command the arguments abbreviate. */
  function MatchLen(words: seq<string>, args: seq<string>): (n: nat)
    requires |words| <= |args|
    ensures n <= |words|
    ensures forall i :: 0 <= i < n ==> args[i] <= words[i]
    ensures n < |words| ==> !(args[n] <= words[n])
  {
    if words == [] || !(args[0] <= words[0]) then 0 else 1 + MatchLen(words[1..], args[1..])
  }

  ghost predicate Matches(c: Command, args: seq<string>) {
    |c.words| <= |args| && forall i :: 0 <= i < |c.words| ==> args[i] <= c.words[i]
  }

  /** Another command agrees with `c` on the first `i` words, and the `i`th argument abbreviates its
      next word, which is not that of `c`. */
  ghost predicate Rival(c: Command, other: Command, args: seq<string>, i: nat)
    requires i < |c.words| <= |args|
  {
    i < |other.words| && other.words[..i] == c.words[..i] && other.words[i] != c.words[i] && args[i] <= other.words[i]
  }

  ghost predicate Ambiguous(table: seq<Command>, c: Command, args: seq<string>)
    requires |c.words| <= |args|
  {
    exists i, k :: 0 <= i < |c.words| && 0 <= k < |table| && Rival(c, table[k], args, i)
  }

  /** No command's words begin another's. */
  ghost predicate GoodTable(table: seq<Command>) {
    && (forall i :: 0 <= i < |table| ==> table[i].words != [])
    && (forall i, j :: 0 <= i < |table| && 0 <= j < |table| && i != j ==> !(table[i].words <= table[j].words))
  }

  /** Two commands of a good table differ in a word that both have. */
  lemma {:induction false} FirstDifference(a: seq<string>, b: seq<string>) returns (d: nat)
    requires !(a <= b) && !(b <= a)
    ensures d < |a| && d < |b| && a[..d] == b[..d] && a[d] != b[d]
  {
    if a[0] != b[0] {
      d := 0;
    } else {
      assert a == [a[0]] + a[1..] && b == [b[0]] + b[1..];
      var e := FirstDifference(a[1..], b[1..]);
      d := e + 1;
      assert a[..d] == [a[0]] + a[1..][..e] && b[..d] == [b[0]] + b[1..][..e];
    }
  }

  /** A command that matches and is not ambiguous is the only one in the table that matches. */
  lemma UnambiguousIsUnique(table: seq<Command>, k: nat, other: nat, args: seq<string>)
    requires GoodTable(table) && k < |table| && other < |table|
    requires Matches(table[k], args) && Matches(table[other], args) && !Ambiguous(table, table[k], args)
    ensures other == k
  {
    if other != k {
      var d := FirstDifference(table[other].words, table[k].words);
      assert Rival(table[k], table[other], args, d);
    }
  }

  /** `check_ambiguity`. */
  method CheckAmbiguity(table: seq<Command>, c: Command, args: seq<string>) returns (ok: bool)
    requires GoodTable(table) && c in table && |c.words| <= |args|
    ensures ok == !Ambiguous(table, c, args)
  {
    var i := 0;
    while i < |c.words|
      invariant i <= |c.words|
      invariant forall j, k :: 0 <= j < i && 0 <= k < |table| ==> !Rival(c, table[k], args, j)
    {
      var match_, k := 0, 0;
      while k < |table|
        invariant k <= |table| && match_ >= 0
        invariant match_ > 0 <==> exists m :: 0 <= m < k && Rival(c, table[m], args, i)
      {
        var found := IsRival(table, c, table[k], args, i);
        if found { match_ := match_ + 1; }
        k := k + 1;
      }
      if match_ > 0 { return false; }
      i := i + 1;
    }
    return true;
  }

  lemma WordsApart(table: seq<Command>, c: Command, cp: Command)
    requires GoodTable(table) && c in table && cp in table
    ensures cp.words <= c.words ==> cp == c
  {
    var k, m :| 0 <= k < |table| && table[k] == c && 0 <= m < |table| && table[m] == cp;
    assert k != m ==> !(table[m].words <= table[k].words);
  }

  /** The body of its inner loop, for one command of the table. */
  method IsRival(table: seq<Command>, c: Command, cp: Command, args: seq<string>, i: nat) returns (found: bool)
    requires GoodTable(table) && c in table && cp in table && i < |c.words| <= |args|
    ensures found == Rival(c, cp, args, i)
  {
    if |cp.words| < i { return false; }
    var j := 0;
    while j < i
      invariant j <= i && cp.words[..j] == c.words[..j]
    {
      if c.words[j] != cp.words[j] {
        assert c.words[..i][j] != cp.words[..i][j];
        return false;
      }
      j := j + 1;
    }
    WordsApart(table, c, cp);
    assert |cp.words| == i ==> cp.words <= c.words;
    if c.words[i] == cp.words[i] { return false; }
    found := Abbreviates(args[i], cp.words[i]);
  }

  // ---- finding the command ----

  datatype Parsed =
    | GeneralHelp
    | DetailedHelp(commands: seq<Command>)
    | Unknown
    | IsAmbiguous
    | WrongArguments
    | Run(command: Command, args: seq<string>)

  /** Whether the word after those that match asks for help on the command. */
  predicate AsksHelp(c: Command, args: seq<string>)
    requires |c.words| <= |args|
  {
    var i := MatchLen(c.words, args);
    i < |args| && args[i] == "--help"
  }

  /** The scan of the table: the commands to explain, and the first that matches. */
  function Scan(table: seq<Command>, args: seq<string>): (seq<Command>, Option<Command>) {
    if table == [] then ([], None)
    else
      var c := table[0];
      if |args| < |c.words| then Scan(table[1..], args)
      else if AsksHelp(c, args) then
        var rest := Scan(table[1..], args);
        ([c] + rest.0, rest.1)
      else if MatchLen(c.words, args) < |c.words| then Scan(table[1..], args)
      else ([], Some(c))
  }

  predicate WrongCount(nargs: int, given: nat) {
    if nargs < 0 then given < -nargs else nargs != given && nargs != 999
  }

  ghost function Parse(table: seq<Command>, args: seq<string>): Parsed {
    if args == [] || args[0] in {"help", "-h", "--help"} then GeneralHelp
    else
      var found := Scan(table, args);
      if found.0 != [] then DetailedHelp(found.0)
      else if found.1.None? then Unknown
      else
        var c := found.1.value;
        if |c.words| > |args| || Ambiguous(table, c, args) then IsAmbiguous
        else if WrongCount(c.nargs, |args| - |c.words|) then WrongArguments
        else Run(c, args[|c.words|..])
  }

  /** The loop of `parse_args` over the table. */
  method ScanTable(table: seq<Command>, args: seq<string>) returns (helped: seq<Command>, matched: Option<Command>)
    ensures (helped, matched) == Scan(table, args)
  {
    helped, matched := [], None;
    var k := 0;
    assert table[0..] == table && helped + Scan(table, args).0 == Scan(table, args).0;
    while k < |table|
      invariant k <= |table| && matched == None
      invariant Scan(table, args) == (helped + Scan(table[k..], args).0, Scan(table[k..], args).1)
    {
      var c := table[k];
      assert table[k..][0] == c && table[k..][1..] == table[k + 1..];
      k := k + 1;
      if |args| < |c.words| { continue; }
      var i, good := 0, true;
      while i < |c.words|
        invariant i <= |c.words| && good && MatchLen(c.words, args) == i + MatchLen(c.words[i..], args[i..])
        decreases |c.words| - i
      {
        good := Abbreviates(args[i], c.words[i]);
        if !good { break; }
        assert c.words[i..][1..] == c.words[i + 1..] && args[i..][1..] == args[i + 1..];
        i := i + 1;
      }
      assert i == MatchLen(c.words, args) && good == (i == |c.words|);
      if |args| > i && args[i] == "--help" {
        assert helped + ([c] + Scan(table[k..], args).0) == (helped + [c]) + Scan(table[k..], args).0;
        helped := helped + [c];
        continue;
      }
      if !good { continue; }
      matched := Some(c);
      assert helped + [] == helped;
      return;
    }
    assert helped + [] == helped && table[k..] == [];
  }

  /** `parse_args`. */
  method ParseArgs(entries: seq<Entry>, args: seq<string>) returns (r: Parsed)
    requires GoodTable(Filled(entries))
    ensures r == Parse(Filled(entries), args)
  {
    hide Filled, Scan, GoodTable, Ambiguous;
    if args == [] || args[0] == "help" || args[0] == "-h" || args[0] == "--help" { return GeneralHelp; }
    var table := FillCommands(entries);
    var helped, matched := ScanTable(table, args);
    ScanFinds(table, args);
    if helped != [] { return DetailedHelp(helped); }
    if matched == None { return Unknown; }
    var c := matched.value;
    var ok := CheckAmbiguity(table, c, args);
    if !ok { return IsAmbiguous; }
    var given := |args| - |c.words|;
    if c.nargs < 0 && c.nargs < -given { return WrongArguments; }
    if c.nargs >= 0 && c.nargs != given && c.nargs != 999 { return WrongArguments; }
    r := Run(c, args[|c.words|..]);
  }

  // ---- what parsing promises ----

  /** The scan finds the first command that matches, if one does; it explains only commands of the table
      for which help is asked. */
  lemma {:induction false} ScanFinds(table: seq<Command>, args: seq<string>)
    ensures var r := Scan(table, args);
            && (forall e <- r.0 :: e in table && |e.words| <= |args| && AsksHelp(e, args))
            && (r.1.Some? ==> r.1.value in table && Matches(r.1.value, args) && !AsksHelp(r.1.value, args))
            && (r.1.None? ==> forall c <- table :: Matches(c, args) ==> AsksHelp(c, args))
            && (r.1.None? ==> forall e <- table :: |e.words| <= |args| && AsksHelp(e, args) ==> e in r.0)
  {
    if table != [] {
      ScanFinds(table[1..], args);
    }
  }

  /** Whatever runs is the only command of the table that the arguments match, and gets the arguments
      that follow its words. */
  lemma RunsOnlyMatch(table: seq<Command>, args: seq<string>, other: Command)
    requires GoodTable(table) && Parse(table, args).Run? && other in table && Matches(other, args)
    ensures Parse(table, args) == Run(other, args[|other.words|..]) && !WrongCount(other.nargs, |args| - |other.words|)
  {
    ScanFinds(table, args);
    var c := Parse(table, args).command;
    var k, m :| 0 <= k < |table| && table[k] == c && 0 <= m < |table| && table[m] == other;
    UnambiguousIsUnique(table, k, m, args);
  }

  /** No word could be taken for a request for help. */
  ghost predicate NoHelpWords(table: seq<Command>) {
    forall c <- table :: forall i :: 0 <= i < |c.words| ==> !("--help" <= c.words[i])
  }

  /** The same commands in any order. */
  ghost predicate Reordered(table: seq<Command>, other: seq<Command>) {
    GoodTable(table) && GoodTable(other) && forall c :: c in table <==> c in other
  }

  lemma AmbiguityReordered(table: seq<Command>, other: seq<Command>, c: Command, args: seq<string>)
    requires Reordered(table, other) && |c.words| <= |args| && Ambiguous(table, c, args)
    ensures Ambiguous(other, c, args)
  {
    var i, k :| 0 <= i < |c.words| && 0 <= k < |table| && Rival(c, table[k], args, i);
    assert table[k] in other;
    var m :| 0 <= m < |other| && other[m] == table[k];
    assert Rival(c, other[m], args, i);
  }

  /** Help asked in the middle of a command makes it ambiguous. */
  lemma HelpIsRival(table: seq<Command>, c: Command, e: Command, args: seq<string>)
    requires GoodTable(table) && NoHelpWords(table) && c in table && e in table && |e.words| <= |args|
    requires Matches(c, args) && !AsksHelp(c, args) && AsksHelp(e, args)
    ensures Ambiguous(table, c, args)
  {
    var k, m :| 0 <= k < |table| && table[k] == c && 0 <= m < |table| && table[m] == e;
    var d := FirstDifference(e.words, c.words);
    var i := MatchLen(e.words, args);
    assert forall j :: 0 <= j < |c.words| ==> args[j] != "--help";
    assert d < i;
    assert Rival(c, table[m], args, d);
  }

  /** The command that runs, and the complaint about its arguments, do not depend on the order of the
      table; nor does any other answer, unless one order explains a command. */
  lemma OrderIndependent(table: seq<Command>, other: seq<Command>, args: seq<string>)
    requires Reordered(table, other) && NoHelpWords(table)
    ensures var p, q := Parse(table, args), Parse(other, args);
            && (p.Run? || p.WrongArguments? ==> q == p)
            && (!p.DetailedHelp? && !q.DetailedHelp? ==> q == p)
  {
    ScanFinds(table, args);
    ScanFinds(other, args);
    hide Scan, Rival, MatchLen, GoodTable, Ambiguous;
    var found, again := Scan(table, args), Scan(other, args);
    if found.1.Some? && again.1.Some? { SameFound(table, other, found.1.value, again.1.value, args); }
    if found.1.Some? && again.0 != [] { HelpReordered(table, found.1.value, again.0[0], args); }
  }

  /** Two commands that match, one found in each order. */
  lemma SameFound(table: seq<Command>, other: seq<Command>, c: Command, e: Command, args: seq<string>)
    requires Reordered(table, other) && c in table && e in table && Matches(c, args) && Matches(e, args)
    ensures Ambiguous(table, c, args) <==> Ambiguous(other, c, args)
    ensures Ambiguous(table, e, args) <==> Ambiguous(other, e, args)
    ensures c == e || (Ambiguous(table, c, args) && Ambiguous(table, e, args))
  {
    hide Ambiguous;
    if Ambiguous(table, c, args) { AmbiguityReordered(table, other, c, args); }
    if Ambiguous(other, c, args) { AmbiguityReordered(other, table, c, args); }
    if Ambiguous(table, e, args) { AmbiguityReordered(table, other, e, args); }
    if Ambiguous(other, e, args) { AmbiguityReordered(other, table, e, args); }
    var k, m :| 0 <= k < |table| && table[k] == c && 0 <= m < |table| && table[m] == e;
    if !Ambiguous(table, c, args) { UnambiguousIsUnique(table, k, m, args); }
    if !Ambiguous(table, e, args) { UnambiguousIsUnique(table, m, k, args); }
  }

  lemma HelpReordered(table: seq<Command>, c: Command, e: Command, args: seq<string>)
    requires GoodTable(table) && NoHelpWords(table) && c in table && Matches(c, args) && !AsksHelp(c, args)
    ensures e in table && |e.words| <= |args| && AsksHelp(e, args) ==> Ambiguous(table, c, args)
  {
    if e in table && |e.words| <= |args| && AsksHelp(e, args) { HelpIsRival(table, c, e, args); }
  }

  /** Help is asked on some command, and some command matches for which it is not. */
  ghost predicate Asked(table: seq<Command>, args: seq<string>) {
    exists e :: e in table && |e.words| <= |args| && AsksHelp(e, args)
  }

  ghost predicate Matched(table: seq<Command>, args: seq<string>) {
    exists c :: c in table && Matches(c, args) && !AsksHelp(c, args)
  }

  /** The same answer; explanations may come in another order. */
  ghost predicate SameAnswer(p: Parsed, q: Parsed) {
    p == q || (p.DetailedHelp? && q.DetailedHelp? && forall c :: c in p.commands <==> c in q.commands)
  }

  /** The table with line `k` moved to the front. */
  function Fronted(table: seq<Command>, k: nat): (r: seq<Command>)
    requires k < |table|
    ensures |r| == |table|
  {
    [table[k]] + table[..k] + table[k + 1..]
  }

  function FrontedFrom(k: nat, i: nat): int { if i == 0 then k else if i <= k then i - 1 else i }

  lemma FrontedIsReordered(table: seq<Command>, k: nat)
    requires GoodTable(table) && k < |table|
    ensures Reordered(table, Fronted(table, k)) && Fronted(table, k)[0] == table[k]
  {
    var r := Fronted(table, k);
    forall i | 0 <= i < |r| ensures 0 <= FrontedFrom(k, i) < |table| && r[i] == table[FrontedFrom(k, i)] { }
    forall c ensures c in table <==> c in r {
      if c in table {
        var i :| 0 <= i < |table| && table[i] == c;
        assert r[if i == k then 0 else if i < k then i + 1 else i] == c;
      }
    }
    forall i, j | 0 <= i < |r| && 0 <= j < |r| && i != j ensures !(r[i].words <= r[j].words) {
      assert FrontedFrom(k, i) != FrontedFrom(k, j);
    }
    hide Fronted;
  }

  /** The order of the table matters to the answer if and only if help is asked on one command while
      another matches: then it decides whether there is an explanation or a complaint. */
  lemma OrderMattersIff(table: seq<Command>, args: seq<string>)
    requires GoodTable(table) && NoHelpWords(table) && args != [] && args[0] !in {"help", "-h", "--help"}
    ensures (exists other :: Reordered(table, other) && !SameAnswer(Parse(table, args), Parse(other, args)))
            <==> Asked(table, args) && Matched(table, args)
  {
    hide GoodTable, NoHelpWords, Parse;
    if Asked(table, args) && Matched(table, args) {
      var e :| e in table && |e.words| <= |args| && AsksHelp(e, args);
      var c :| c in table && Matches(c, args) && !AsksHelp(c, args);
      var k, m :| 0 <= k < |table| && table[k] == e && 0 <= m < |table| && table[m] == c;
      FrontedIsReordered(table, k);
      FrontedIsReordered(table, m);
      HelpFirst(table, Fronted(table, k), args);
      MatchFirst(table, Fronted(table, m), e, args);
      hide Fronted, Reordered, AsksHelp;
      assert !SameAnswer(Parse(Fronted(table, k), args), Parse(Fronted(table, m), args));
      assert !SameAnswer(Parse(table, args), Parse(Fronted(table, k), args))
             || !SameAnswer(Parse(table, args), Parse(Fronted(table, m), args));
    } else {
      forall other | Reordered(table, other) ensures SameAnswer(Parse(table, args), Parse(other, args)) {
        OneAnswer(table, other, args);
      }
    }
  }

  lemma HelpFirst(table: seq<Command>, other: seq<Command>, args: seq<string>)
    requires args != [] && args[0] !in {"help", "-h", "--help"}
    requires Reordered(table, other) && other != [] && |other[0].words| <= |args| && AsksHelp(other[0], args)
    ensures Parse(other, args).DetailedHelp?
  {
  }

  lemma MatchFirst(table: seq<Command>, other: seq<Command>, e: Command, args: seq<string>)
    requires args != [] && args[0] !in {"help", "-h", "--help"} && NoHelpWords(table)
    requires Reordered(table, other) && other != [] && Matches(other[0], args) && !AsksHelp(other[0], args)
    requires e in table && |e.words| <= |args| && AsksHelp(e, args)
    ensures Parse(other, args) == IsAmbiguous
  {
    var c := other[0];
    assert c in table;
    AllMatch(c.words, args);
    assert Scan(other, args) == ([], Some(c));
    HelpIsRival(table, c, e, args);
    AmbiguityReordered(table, other, c, args);
  }

  lemma {:induction false} AllMatch(words: seq<string>, args: seq<string>)
    requires |words| <= |args| && forall i :: 0 <= i < |words| ==> args[i] <= words[i]
    ensures MatchLen(words, args) == |words|
  {
  }

  lemma NobodyAsks(table: seq<Command>, other: seq<Command>, args: seq<string>)
    requires !Asked(table, args) && forall c :: c in other ==> c in table
    ensures Scan(other, args).0 == []
  {
    hide Scan, AsksHelp;
    var helped := Scan(other, args).0;
    assert helped != [] ==> helped[0] in helped;
    ScanFinds(other, args);
  }

  lemma NobodyMatches(table: seq<Command>, other: seq<Command>, args: seq<string>)
    requires !Matched(table, args) && forall c :: c in other <==> c in table
    ensures Scan(other, args).1 == None
    ensures forall e :: e in Scan(other, args).0 <==> e in table && |e.words| <= |args| && AsksHelp(e, args)
  {
    ScanFinds(other, args);
    hide Scan, AsksHelp, Matches;
  }

  lemma OneAnswer(table: seq<Command>, other: seq<Command>, args: seq<string>)
    requires Reordered(table, other) && NoHelpWords(table) && !(Asked(table, args) && Matched(table, args))
    ensures SameAnswer(Parse(table, args), Parse(other, args))
  {
    hide Scan, GoodTable, NoHelpWords, MatchLen, Ambiguous, AsksHelp, Matches, Asked, Matched;
    OrderIndependent(table, other, args);
    if !Asked(table, args) {
      NobodyAsks(table, table, args);
      NobodyAsks(table, other, args);
    } else {
      var p, q := Scan(table, args).0, Scan(other, args).0;
      assert (p != [] ==> p[0] in p) && (q != [] ==> q[0] in q);
      NobodyMatches(table, table, args);
      NobodyMatches(table, other, args);
    }
  }

  /** Words that abbreviate those of a command. */
  ghost predicate Abbreviate(typed: seq<string>, words: seq<string>) {
    |typed| == |words| && forall i :: 0 <= i < |words| ==> typed[i] <= words[i]
  }

  /** No typed word also abbreviates a different next word of a command with the same words before. */
  ghost predicate NoRival(table: seq<Command>, c: Command, typed: seq<string>)
    requires |typed| == |c.words|
  {
    forall i, k :: 0 <= i < |c.words| && 0 <= k < |table| ==> !Rival(c, table[k], typed, i)
  }

  lemma TypedAmbiguous(table: seq<Command>, c: Command, typed: seq<string>, rest: seq<string>)
    requires |typed| == |c.words|
    ensures Ambiguous(table, c, typed + rest) <==> !NoRival(table, c, typed)
  {
    var args := typed + rest;
    forall i, k | 0 <= i < |c.words| && 0 <= k < |table|
      ensures Rival(c, table[k], args, i) <==> Rival(c, table[k], typed, i)
    {
      assert args[i] == typed[i];
    }
    hide Rival;
  }

  /** An abbreviated command with the right arguments runs if and only if no typed word has a rival. */
  lemma AbbreviationRuns(table: seq<Command>, c: Command, typed: seq<string>, rest: seq<string>)
    requires GoodTable(table) && NoHelpWords(table) && c in table && Abbreviate(typed, c.words)
    requires typed[0] !in {"help", "-h"} && !WrongCount(c.nargs, |rest|) && (rest != [] ==> rest[0] != "--help")
    ensures Parse(table, typed + rest) == Run(c, rest) <==> NoRival(table, c, typed)
    ensures !Parse(table, typed + rest).Run? <==> !NoRival(table, c, typed)
  {
    hide NoRival, Ambiguous, GoodTable, MatchLen, NoHelpWords, Scan, Matches, AsksHelp;
    var args := typed + rest;
    AbbreviationMatches(table, c, typed, rest);
    TypedAmbiguous(table, c, typed, rest);
    ScanFinds(table, args);
    if !Ambiguous(table, c, args) {
      FoundIs(table, c, args);
    } else if Parse(table, args).Run? {
      RunsOnlyMatch(table, args, c);
    }
  }

  lemma AbbreviationMatches(table: seq<Command>, c: Command, typed: seq<string>, rest: seq<string>)
    requires GoodTable(table) && NoHelpWords(table) && c in table && Abbreviate(typed, c.words)
    requires rest != [] ==> rest[0] != "--help"
    ensures typed != [] && c.words != [] && (typed + rest)[0] == typed[0] != "--help" && (typed + rest)[|c.words|..] == rest
    ensures Matches(c, typed + rest) && !AsksHelp(c, typed + rest)
  {
    WholeMatch(c.words, typed, rest);
    assert typed[0] <= c.words[0] && !("--help" <= c.words[0]);
  }

  lemma {:induction false} WholeMatch(words: seq<string>, typed: seq<string>, rest: seq<string>)
    requires Abbreviate(typed, words)
    ensures MatchLen(words, typed + rest) == |words|
  {
    if words != [] {
      assert (typed + rest)[1..] == typed[1..] + rest;
      WholeMatch(words[1..], typed[1..], rest);
    }
  }

  lemma FoundIs(table: seq<Command>, c: Command, args: seq<string>)
    requires GoodTable(table) && NoHelpWords(table) && c in table
    requires Matches(c, args) && !AsksHelp(c, args) && !Ambiguous(table, c, args)
    ensures Scan(table, args) == ([], Some(c))
  {
    ScanFinds(table, args);
    var found := Scan(table, args);
    if found.0 != [] { HelpIsRival(table, c, found.0[0], args); }
    var k, m :| 0 <= k < |table| && table[k] == c && 0 <= m < |table| && table[m] == found.1.value;
    UnambiguousIsUnique(table, k, m, args);
  }

  /** An abbreviated command without a rival runs with a good number of arguments and is refused with a wrong
      one: fewer than the minimum that a negative count stands for, or another number than the exact one; 999
      stands for any. */
  lemma ArgumentsCounted(table: seq<Command>, c: Command, typed: seq<string>, rest: seq<string>)
    requires GoodTable(table) && NoHelpWords(table) && c in table && Abbreviate(typed, c.words) && NoRival(table, c, typed)
    requires typed[0] !in {"help", "-h"} && (rest != [] ==> rest[0] != "--help")
    ensures c.nargs < 0 ==> Parse(table, typed + rest) == if |rest| < -c.nargs then WrongArguments else Run(c, rest)
    ensures c.nargs >= 0 ==>
              Parse(table, typed + rest) == if |rest| == c.nargs || c.nargs == 999 then Run(c, rest) else WrongArguments
  {
    AbbreviationMatches(table, c, typed, rest);
    TypedAmbiguous(table, c, typed, rest);
    FoundIs(table, c, typed + rest);
    hide GoodTable, NoHelpWords, NoRival, Ambiguous, MatchLen, Scan, Matches, AsksHelp, Abbreviate;
  }

  /** Help is asked on a command by the word behind those that abbreviate its first words, where either they are
      all of its words or the next one is not abbreviated by it. */
  lemma HelpIsAsked(c: Command, args: seq<string>)
    requires |c.words| <= |args|
    ensures AsksHelp(c, args) <==>
              exists i :: 0 <= i <= |c.words| && i < |args| && args[i] == "--help"
                          && (forall j :: 0 <= j < i ==> args[j] <= c.words[j]) && (i < |c.words| ==> !("--help" <= c.words[i]))
  {
    var n := MatchLen(c.words, args);
    hide MatchLen;
    if i :| 0 <= i <= |c.words| && i < |args| && args[i] == "--help"
            && (forall j :: 0 <= j < i ==> args[j] <= c.words[j]) && (i < |c.words| ==> !("--help" <= c.words[i]))
    {
      assert i == n;
    }
  }

  /** The general help is for no arguments or a first one that asks for it. Otherwise a command line is unknown
      if and only if it matches no command and asks for help on none; if it matches none and asks for help on
      some, exactly those are explained. */
  lemma AnswersAre(table: seq<Command>, args: seq<string>)
    ensures Parse(table, args).GeneralHelp? <==> args == [] || args[0] in {"help", "-h", "--help"}
    ensures !Parse(table, args).GeneralHelp? ==>
              (Parse(table, args).Unknown? <==> !Asked(table, args) && !Matched(table, args))
    ensures !Parse(table, args).GeneralHelp? && Asked(table, args) && !Matched(table, args) ==>
              && Parse(table, args).DetailedHelp?
              && forall e :: e in Parse(table, args).commands <==> e in table && |e.words| <= |args| && AsksHelp(e, args)
  {
    ScanFinds(table, args);
    hide Scan, AsksHelp, Matches, MatchLen;
    var found := Scan(table, args);
    assert found.0 != [] ==> found.0[0] in found.0;
    if !Matched(table, args) { NobodyMatches(table, table, args); }
    if !Asked(table, args) { NobodyAsks(table, table, args); }
  }

  /** The words of a verb abbreviate what is stored of it. */
  lemma WordsAbbreviate(verb: string)
    ensures Abbreviate(Words(verb), Stored(Words(verb)))
  {
  }

  /** A verb typed in full, with the right arguments, runs if and only if none of its words is also the
      beginning of a different word stored for another command: with verbs `rpmb write` and
      `rpmb write-key` the first is refused, and so is `a b` beside `a b c`, where `b ` is stored. */
  lemma TypedInFull(entries: seq<Entry>, k: nat, rest: seq<string>)
    requires k < |entries| && GoodTable(Filled(entries)) && NoHelpWords(Filled(entries))
    requires var e := entries[k];
             && Words(e.verb)[0] !in {"help", "-h"} && !WrongCount(e.nargs, |rest|) && (rest != [] ==> rest[0] != "--help")
    ensures var c, typed := Filled(entries)[k], Words(entries[k].verb);
            && (Parse(Filled(entries), typed + rest) == Run(c, rest) <==> NoRival(Filled(entries), c, typed))
            && (!Parse(Filled(entries), typed + rest).Run? <==> !NoRival(Filled(entries), c, typed))
  {
    hide Words, GoodTable, NoHelpWords, Parse, NoRival, Stored;
    WordsAbbreviate(entries[k].verb);
    AbbreviationRuns(Filled(entries), Filled(entries)[k], Words(entries[k].verb), rest);
  }

  lemma JoinShort(words: seq<string>)
    ensures |words| == 1 ==> Join(words) == words[0]
    ensures |words| == 2 ==> Join(words) == words[0] + " " + words[1]
  {
    if |words| == 2 { assert Join(words[1..]) == words[1]; }
  }

  lemma StoredShort(words: seq<string>)
    ensures |words| <= 2 ==> Stored(words) == words
    ensures words != [] ==> Stored(words)[0] == words[0]
  {
  }

  lemma TwoVerbs()
    ensures Filled([Entry("a b", 999), Entry("a b c", 999)]) == [Command(["a", "b"], 999), Command(["a", "b ", "c"], 999)]
  {
    hide Words, Stored;
    assert ["a", "b", "c"][1..] == ["b", "c"];
    JoinShort(["b", "c"]);
    JoinShort(["a", "b"]);
    assert "b" + " " + "c" == "b c" && "a" + " " + "b" == "a b" && "a" + " " + "b c" == "a b c" && "b" + " " == "b ";
    assert Join(["a", "b", "c"]) == "a b c";
    WordsAre("a b", ["a", "b"]);
    WordsAre("a b c", ["a", "b", "c"]);
    StoredThree("a", "b", "c");
    StoredShort(["a", "b"]);
  }

  /** A verb that is the beginning of another, word by word, is refused although it is typed in full. */
  lemma ShorterVerbRefused(dev: string)
    requires dev != "--help"
    ensures var table := Filled([Entry("a b", 999), Entry("a b c", 999)]);
            GoodTable(table) && Parse(table, ["a", "b", dev]) == IsAmbiguous
  {
    hide Filled;
    TwoVerbs();
    var c, other := Command(["a", "b"], 999), Command(["a", "b ", "c"], 999);
    var table, args := [c, other], ["a", "b", dev];
    assert !("b" == "b ") && !("b " <= "b");
    assert c.words[..1] == other.words[..1] == ["a"];
    assert Rival(c, table[1], args, 1);
    WholeMatch(c.words, c.words, [dev]);
    assert args == c.words + [dev];
    assert table[0] == c && !AsksHelp(c, args);
  }
}
