/**
 The command line scanner (c-ares/ares_getopt.c).
 */
module OptionScanner {
  import opened Common

  /** The scanning pointer and the index of the argument being scanned. */
  datatype Cursor = Cursor(place: string, optind: nat)

  /** What a call returns. */
  datatype Ret = Eof | Letter(c: char)

  /** What a call does to optarg. */
  datatype Change = Keep | Set(arg: Option<string>)

  /** One step: where the cursor is left, what is returned, the letter that was checked, if any, and the effect on optarg. */
  datatype Step = Step(cursor: Cursor, ret: Ret, checked: Option<char>, change: Change)
  {
    /** The option's argument, if it has one. */
    function Arg(): Option<string> { if change.Set? then change.arg else None }
  }

  const BADCH := '?'
  const BADARG := ':'

  const NUL := '\0'

  predicate IsSuffix(text: string, word: string)
  {
    |text| <= |word| && word[|word| - |text|..] == text
  }

  /** The pointer is inside the current argument whenever it is not at the end of a text. */
  predicate Valid(argv: seq<string>, cur: Cursor)
  {
    cur.place != "" ==> cur.optind < |argv| && IsSuffix(cur.place, argv[cur.optind])
  }

  predicate IsOption(ostr: string, c: char) { c != ':' && c in ostr }

  function Index(s: string, c: char): (i: nat)
    requires c in s
    ensures i < |s| && s[i] == c && c !in s[..i]
  {
    if s[0] == c then 0 else 1 + Index(s[1..], c)
  }

  /** A colon after the letter in the option string asks for an argument. */
  predicate TakesArg(ostr: string, c: char)
    requires c in ostr
  {
    Index(ostr, c) + 1 < |ostr| && ostr[Index(ostr, c) + 1] == ':'
  }

  /** The text to scan next, or None at the end of the options, with the index to leave. */
  function Refresh(argv: seq<string>, cur: Cursor): (r: (Option<string>, nat))
    requires Valid(argv, cur)
    ensures r.0.Some? ==> r.0.value != "" && r.1 < |argv| && IsSuffix(r.0.value, argv[r.1])
  {
    if cur.place != "" then (Some(cur.place), cur.optind)
    else if cur.optind >= |argv| || argv[cur.optind] == "" || argv[cur.optind][0] != '-' then (None, cur.optind)
    else if |argv[cur.optind]| == 1 then (Some("-"), cur.optind)
    else if argv[cur.optind][1] == '-' then (None, cur.optind + 1)
    else (Some(argv[cur.optind][1..]), cur.optind)
  }

  function Past(rest: string, optind: nat): Cursor { Cursor(rest, if rest == "" then optind + 1 else optind) }

  /** The letter at the front of a text within argument i. */
  function Dispatch(argv: seq<string>, ostr: string, text: string, i: nat): Step
    requires text != ""
  {
    var c, rest := text[0], text[1..];
    if !IsOption(ostr, c) then
      if c == '-' then Step(Cursor(rest, i), Eof, Some(c), Keep) else Step(Past(rest, i), Letter(BADCH), Some(c), Keep)
    else if !TakesArg(ostr, c) then Step(Past(rest, i), Letter(c), Some(c), Set(None))
    else if rest != "" then Step(Cursor("", i + 1), Letter(c), Some(c), Set(Some(rest)))
    else if |argv| <= i + 1 then
      Step(Cursor("", i + 1), Letter(if ostr[0] == ':' then BADARG else BADCH), Some(c), Keep)
    else Step(Cursor("", i + 2), Letter(c), Some(c), Set(Some(argv[i + 1])))
  }

  function Next(argv: seq<string>, ostr: string, cur: Cursor): Step
    requires Valid(argv, cur)
  {
    var (text, i) := Refresh(argv, cur);
    if text.None? then Step(Cursor("", i), Eof, None, Keep) else Dispatch(argv, ostr, text.value, i)
  }

  // ----- Every run ends

  function Total(argv: seq<string>, i: nat): nat
    decreases if i < |argv| then |argv| - i else 0
  {
    if i >= |argv| then 0 else |argv[i]| + 1 + Total(argv, i + 1)
  }

  /** The input not yet scanned. */
  function Unscanned(argv: seq<string>, cur: Cursor): nat
  {
    if cur.place == "" then Total(argv, cur.optind) else |cur.place| + Total(argv, cur.optind + 1)
  }

  lemma SuffixEnds(text: string, word: string)
    requires text != "" && IsSuffix(text, word)
    ensures |text| <= |word| && text[|text| - 1] == word[|word| - 1] && text[0] in word
    ensures IsSuffix(text[1..], word)
  {
    var n := |word| - |text|;
    assert text[|text| - 1] == word[n..][|text| - 1];
    assert text[0] == word[n];
    assert word[n + 1..] == word[n..][1..];
  }

  /** The letter that is looked up in the option string is never the end of an argument. */
  lemma CheckedIsNoNul(argv: seq<string>, ostr: string, cur: Cursor)
    requires Valid(argv, cur) && forall a <- argv :: NUL !in a
    ensures Next(argv, ostr, cur).checked != Some(NUL)
  {
    hide IsOption, TakesArg, IsSuffix;
    var (text, i) := Refresh(argv, cur);
    if text.Some? {
      SuffixEnds(text.value, argv[i]);
      assert argv[i] in argv;
    }
  }

  /**
   Every call leaves the cursor valid, and scans something unless it reports the end. A
   reported end gives input back exactly when a cluster ends in a '-' that is no option.
   */
  lemma NextProgresses(argv: seq<string>, ostr: string, cur: Cursor)
    requires Valid(argv, cur)
    ensures var s := Next(argv, ostr, cur);
            && Valid(argv, s.cursor)
            && (s.ret != Eof ==> Unscanned(argv, s.cursor) < Unscanned(argv, cur))
            && (Unscanned(argv, s.cursor) > Unscanned(argv, cur)
                <==> |cur.place| == 1 && argv[cur.optind][|argv[cur.optind]| - 1] == '-' && !IsOption(ostr, '-'))
  {
    hide IsOption, TakesArg, IsSuffix;
    var i := cur.optind;
    var text := Refresh(argv, cur).0;
    if text.Some? { SuffixEnds(text.value, argv[Refresh(argv, cur).1]); }
    var a, b := Total(argv, i), Total(argv, i + 1);
    assert Total(argv, i + 2) <= b;
  }

  /** What a loop of calls finds before the end, with the cursor at the end. */
  datatype Found = Found(c: char, arg: Option<string>)

  datatype Run = Run(found: seq<Found>, end: Cursor)

  function Scan(argv: seq<string>, ostr: string, cur: Cursor): Run
    requires Valid(argv, cur)
    decreases Unscanned(argv, cur)
  {
    var s := Next(argv, ostr, cur);
    if s.ret == Eof then Run([], s.cursor)
    else
      NextProgresses(argv, ostr, cur);
      var later := Scan(argv, ostr, s.cursor);
      Run([Found(s.ret.c, s.Arg())] + later.found, later.end)
  }

  // ----- The scanner

  class Scanner {
    var place: string
    var optind: nat
    var optopt: char
    var optarg: Option<string>

    constructor ()
      ensures place == "" && optind == 1
    {
      place, optind, optopt, optarg := "", 1, '0', None;
    }

    function At(): Cursor reads this { Cursor(place, optind) }

    method GetOpt(argv: seq<string>, ostr: string) returns (ret: Ret)
      requires Valid(argv, At())
      modifies this
      ensures var s := Next(argv, ostr, old(At()));
              && At() == s.cursor && ret == s.ret && Valid(argv, At())
              && optopt == (if s.checked.Some? then s.checked.value else old(optopt))
              && optarg == (if s.change.Set? then s.change.arg else old(optarg))
      // No lookup of the terminating zero: the letter looked up is optopt.
      ensures Next(argv, ostr, old(At())).checked.Some? && (forall a <- argv :: NUL !in a) ==> optopt != NUL
    {
      hide Refresh, Dispatch, IsSuffix, IsOption, TakesArg;
      NextProgresses(argv, ostr, At());
      if forall a <- argv :: NUL !in a { CheckedIsNoNul(argv, ostr, At()); }
      var more := UpdatePlace(argv);
      if !more { return Eof; }
      ret := TakeLetter(argv, ostr);
    }

    /** Updates the scanning pointer when a new argument is due; false at the end of the options. */
    method UpdatePlace(argv: seq<string>) returns (more: bool)
      requires Valid(argv, At())
      modifies this`place, this`optind
      ensures var (text, i) := Refresh(argv, old(At()));
              more == text.Some? && optind == i && place == if more then text.value else ""
    {
      hide IsSuffix;
      if place == "" {
        if optind >= |argv| { return false; }
        place := argv[optind];
        if place == "" || place[0] != '-' {
          place := "";
          return false;
        }
        if |place| > 1 {
          place := place[1..];
          if place[0] == '-' {
            optind := optind + 1;
            place := "";
            return false;
          }
        }
      }
      return true;
    }

    /** Takes the letter at the pointer, and its argument if it needs one. */
    method TakeLetter(argv: seq<string>, ostr: string) returns (ret: Ret)
      requires place != ""
      modifies this
      ensures var s := Dispatch(argv, ostr, old(place), old(optind));
              && At() == s.cursor && ret == s.ret && s.checked == Some(optopt)
              && optarg == (if s.change.Set? then s.change.arg else old(optarg))
    {
      hide Index;
      optopt := place[0];
      place := place[1..];
      if optopt == ':' || optopt !in ostr {
        if optopt == '-' { return Eof; }
        if place == "" { optind := optind + 1; }
        return Letter(BADCH);
      }
      if !TakesArg(ostr, optopt) {
        optarg := None;
        if place == "" { optind := optind + 1; }
      } else {
        if place != "" {
          optarg := Some(place);
        } else {
          optind := optind + 1;
          if |argv| <= optind {
            place := "";
            return Letter(if ostr[0] == ':' then BADARG else BADCH);
          }
          optarg := Some(argv[optind]);
        }
        place := "";
        optind := optind + 1;
      }
      return Letter(optopt);
    }
  }

  /** Calls the scanner until it reports the end, with optarg cleared before each call so that it is never a stale one. */
  method ScanAll(argv: seq<string>, ostr: string) returns (found: seq<Found>, optind: nat)
    ensures found == Scan(argv, ostr, Cursor("", 1)).found && optind == Scan(argv, ostr, Cursor("", 1)).end.optind
  {
    hide Next, Scan;
    var scanner := new Scanner();
    found := [];
    ghost var all, before := Scan(argv, ostr, scanner.At()), scanner.At();
    ScanStep(argv, ostr, before);
    scanner.optarg := None;
    var ret := scanner.GetOpt(argv, ostr);
    while ret != Eof
      invariant Valid(argv, before) && Valid(argv, scanner.At()) && fresh(scanner)
      invariant scanner.At() == Next(argv, ostr, before).cursor && ret == Next(argv, ostr, before).ret
      invariant scanner.optarg == Next(argv, ostr, before).Arg()
      invariant all.found == found + Scan(argv, ostr, before).found && all.end == Scan(argv, ostr, before).end
      decreases Unscanned(argv, before)
    {
      ScanStep(argv, ostr, before);
      found := found + [Found(ret.c, scanner.optarg)];
      before := scanner.At();
      scanner.optarg := None;
      ret := scanner.GetOpt(argv, ostr);
    }
    ScanStep(argv, ostr, before);
    optind := scanner.optind;
  }

  lemma ScanStep(argv: seq<string>, ostr: string, cur: Cursor)
    requires Valid(argv, cur)
    ensures var s := Next(argv, ostr, cur);
            && Valid(argv, s.cursor)
            && if s.ret == Eof then Scan(argv, ostr, cur) == Run([], s.cursor)
               else
                 && Unscanned(argv, s.cursor) < Unscanned(argv, cur)
                 && Scan(argv, ostr, cur).found == [Found(s.ret.c, s.Arg())] + Scan(argv, ostr, s.cursor).found
                 && Scan(argv, ostr, cur).end == Scan(argv, ostr, s.cursor).end
  {
    hide Next;
    NextProgresses(argv, ostr, cur);
  }

  // ----- Option strings

  /** An option letter, and whether it takes an argument. */
  datatype Declared = Declared(c: char, arg: bool)

  /** An option string: each letter, with a colon behind it if it takes an argument. */
  function OptionString(decls: seq<Declared>): string
  {
    if decls == [] then "" else [decls[0].c] + (if decls[0].arg then ":" else "") + OptionString(decls[1..])
  }

  predicate IsDeclared(decls: seq<Declared>, c: char) { exists d <- decls :: d.c == c }

  /** What the first declaration of a letter says. */
  predicate DeclaredArg(decls: seq<Declared>, c: char)
    requires IsDeclared(decls, c)
  {
    if decls[0].c == c then decls[0].arg else assert IsDeclared(decls[1..], c); DeclaredArg(decls[1..], c)
  }

  /** The options of an option string are the declared letters, and take an argument if so declared. */
  lemma {:induction false} OptionsDeclared(decls: seq<Declared>, c: char)
    requires forall d <- decls :: d.c != ':'
    ensures IsOption(OptionString(decls), c) <==> IsDeclared(decls, c)
    ensures IsDeclared(decls, c) ==> TakesArg(OptionString(decls), c) == DeclaredArg(decls, c)
  {
    hide Index;
    if decls != [] && c != ':' {
      var d, rest := decls[0], decls[1..];
      OptionsDeclared(rest, c);
      assert decls == [d] + rest;
      var front := [d.c] + if d.arg then ":" else "";
      assert OptionString(decls) == front + OptionString(rest);
      if c == d.c {
        NextLetterIsNoColon(rest);
        IndexOfFirst(OptionString(decls), c);
      } else {
        hide OptionString, TakesArg;
        BehindOthers(front, OptionString(rest), c);
        assert IsDeclared(decls, c) <==> IsDeclared(rest, c);
      }
    }
  }

  /** A colon at the front of the option string declares nothing. */
  lemma LeadingColon(ostr: string, c: char)
    ensures IsOption(":" + ostr, c) <==> IsOption(ostr, c)
    ensures IsOption(ostr, c) ==> TakesArg(":" + ostr, c) == TakesArg(ostr, c)
  {
    hide Index;
    if c != ':' { BehindOthers(":", ostr, c); }
  }

  lemma NextLetterIsNoColon(decls: seq<Declared>)
    requires forall d <- decls :: d.c != ':'
    ensures OptionString(decls) != "" ==> OptionString(decls)[0] != ':'
  {
  }

  lemma IndexOfFirst(s: string, c: char)
    requires s != "" && s[0] == c
    ensures Index(s, c) == 0
  {
  }

  lemma {:induction false} IndexBehind(front: string, s: string, c: char)
    requires c !in front && c in s
    ensures c in front + s && Index(front + s, c) == |front| + Index(s, c)
  {
    if front == "" {
      assert front + s == s;
    } else {
      assert (front + s)[1..] == front[1..] + s && (front + s)[0] == front[0];
      IndexBehind(front[1..], s, c);
    }
  }

  lemma BehindOthers(front: string, s: string, c: char)
    requires c !in front && c != ':'
    ensures IsOption(front + s, c) <==> IsOption(s, c)
    ensures IsOption(s, c) ==> TakesArg(front + s, c) == TakesArg(s, c)
  {
    hide Index;
    if c in s {
      IndexBehind(front, s, c);
      var k := Index(s, c);
      assert k + 1 < |s| ==> (front + s)[|front| + k + 1] == s[k + 1];
    }
  }

  // ----- Command lines

  /**
   What may end an argument of options: nothing, an option with its argument attached, one with
   it separate, or, as the last of all, one whose argument is missing.
   */
  datatype Tail = NoTail | Attached(c: char, text: string) | Separate(c: char, text: string) | Missing(c: char)

  /** One argument of options: letters that take no argument, known or not, then perhaps one that does. */
  datatype Group = Group(flags: string, tail: Tail)

  predicate IsFlag(ostr: string, c: char) { c != '-' && (IsOption(ostr, c) ==> !TakesArg(ostr, c)) }

  predicate IsKeyed(ostr: string, c: char) { IsOption(ostr, c) && c != '-' && TakesArg(ostr, c) }

  predicate WellFormed(ostr: string, g: Group)
  {
    && (forall c <- g.flags :: IsFlag(ostr, c))
    && match g.tail
       case NoTail => g.flags != ""
       case Attached(c, text) => IsKeyed(ostr, c) && text != ""
       case Separate(c, text) => IsKeyed(ostr, c)
       case Missing(c) => IsKeyed(ostr, c)
  }

  function TailText(t: Tail): string
  {
    match t case NoTail => "" case Attached(c, text) => [c] + text case Separate(c, text) => [c] case Missing(c) => [c]
  }

  function PrintGroup(g: Group): seq<string>
  {
    ["-" + g.flags + TailText(g.tail)] + if g.tail.Separate? then [g.tail.text] else []
  }

  function PrintGroups(gs: seq<Group>): seq<string>
  {
    if gs == [] then [] else PrintGroup(gs[0]) + PrintGroups(gs[1..])
  }

  /** A letter without an argument is found as itself, and as a question mark if it is unknown. */
  function Flag(ostr: string, c: char): Found { Found(if c != ':' && c in ostr then c else '?', None) }

  function Flags(ostr: string, flags: string): seq<Found>
  {
    if flags == "" then [] else [Flag(ostr, flags[0])] + Flags(ostr, flags[1..])
  }

  /** A missing argument is reported by a colon if the option string starts with one, and otherwise by a question mark. */
  function TailFound(ostr: string, t: Tail): seq<Found>
  {
    match t
    case NoTail => []
    case Missing(_) => [Found(if ostr != "" && ostr[0] == ':' then ':' else '?', None)]
    case _ => [Found(t.c, Some(t.text))]
  }

  function Meaning(ostr: string, g: Group): seq<Found> { Flags(ostr, g.flags) + TailFound(ostr, g.tail) }

  function Meanings(ostr: string, gs: seq<Group>): seq<Found>
  {
    if gs == [] then [] else Meaning(ostr, gs[0]) + Meanings(ostr, gs[1..])
  }

  lemma NextFlag(argv: seq<string>, ostr: string, i: nat, text: string)
    requires text != "" && IsFlag(ostr, text[0]) && Valid(argv, Cursor(text, i))
    ensures var s := Next(argv, ostr, Cursor(text, i));
            && s.cursor == Past(text[1..], i) && s.checked == Some(text[0])
            && s.ret == Letter(Flag(ostr, text[0]).c) && s.Arg() == None
  {
    hide TakesArg;
  }

  lemma NextKeyed(argv: seq<string>, ostr: string, i: nat, text: string)
    requires text != "" && IsKeyed(ostr, text[0]) && Valid(argv, Cursor(text, i))
    ensures Next(argv, ostr, Cursor(text, i))
            == if |text| > 1 then Step(Cursor("", i + 1), Letter(text[0]), Some(text[0]), Set(Some(text[1..])))
               else if i + 1 < |argv| then Step(Cursor("", i + 2), Letter(text[0]), Some(text[0]), Set(Some(argv[i + 1])))
               else Step(Cursor("", i + 1), Letter(if ostr[0] == ':' then ':' else '?'), Some(text[0]), Keep)
  {
    hide TakesArg;
  }

  lemma ScanFlag(argv: seq<string>, ostr: string, i: nat, text: string)
    requires text != "" && IsFlag(ostr, text[0]) && Valid(argv, Cursor(text, i))
    ensures var next := Past(text[1..], i);
            && Valid(argv, next)
            && Scan(argv, ostr, Cursor(text, i)).found == [Flag(ostr, text[0])] + Scan(argv, ostr, next).found
            && Scan(argv, ostr, Cursor(text, i)).end == Scan(argv, ostr, next).end
  {
    hide Scan, Next, IsFlag;
    ScanStep(argv, ostr, Cursor(text, i));
    NextFlag(argv, ostr, i, text);
  }

  /** What has to stand behind argument i, given how it ends. */
  predicate Follows(argv: seq<string>, i: nat, tail: Tail)
  {
    && (tail.Separate? ==> i + 1 < |argv| && argv[i + 1] == tail.text)
    && (tail.Missing? ==> i + 1 == |argv|)
  }

  lemma ScanKeyed(argv: seq<string>, ostr: string, i: nat, tail: Tail)
    requires !tail.NoTail? && WellFormed(ostr, Group("", tail)) && i < |argv| && IsSuffix(TailText(tail), argv[i])
    requires Follows(argv, i, tail)
    ensures var next := Cursor("", if tail.Separate? then i + 2 else i + 1);
            && Scan(argv, ostr, Cursor(TailText(tail), i)).found == TailFound(ostr, tail) + Scan(argv, ostr, next).found
            && Scan(argv, ostr, Cursor(TailText(tail), i)).end == Scan(argv, ostr, next).end
  {
    hide Scan, Next, IsKeyed;
    var text := TailText(tail);
    KeyedIsOption(ostr, tail.c);
    assert text[1..] == if tail.Attached? then tail.text else "";
    ScanStep(argv, ostr, Cursor(text, i));
    NextKeyed(argv, ostr, i, text);
  }

  lemma KeyedIsOption(ostr: string, c: char)
    ensures IsKeyed(ostr, c) ==> ostr != "" && c in ostr
  {
  }

  lemma MeaningOfFlag(ostr: string, c: char, rest: string, tail: Tail)
    ensures Meaning(ostr, Group([c] + rest, tail)) == [Flag(ostr, c)] + Meaning(ostr, Group(rest, tail))
    ensures Meaning(ostr, Group("", tail)) == TailFound(ostr, tail)
  {
    hide Flag, TailFound;
    assert ([c] + rest)[1..] == rest;
  }

  /** The scanner inside an argument, at the letters of a group: it finds them and goes on behind the group. */
  lemma {:induction false} ScansLetters(argv: seq<string>, ostr: string, i: nat, flags: string, tail: Tail)
    requires WellFormed(ostr, Group(flags, tail)) && i < |argv| && IsSuffix(flags + TailText(tail), argv[i])
    requires Follows(argv, i, tail)
    ensures var next := Cursor("", if tail.Separate? then i + 2 else i + 1);
            && Scan(argv, ostr, Cursor(flags + TailText(tail), i)).found == Meaning(ostr, Group(flags, tail)) + Scan(argv, ostr, next).found
            && Scan(argv, ostr, Cursor(flags + TailText(tail), i)).end == Scan(argv, ostr, next).end
    decreases |flags|
  {
    hide Scan, WellFormed, Meaning, TailText, IsSuffix, Flag, TailFound;
    var text := flags + TailText(tail);
    if text != "" { SuffixEnds(text, argv[i]); }
    if flags == "" {
      assert text == TailText(tail);
      MeaningOfFlag(ostr, '0', "", tail);
      EmptyGroup(ostr, tail);
      ScanKeyed(argv, ostr, i, tail);
    } else {
      var c, rest := flags[0], flags[1..];
      assert flags == [c] + rest && text[0] == c && text[1..] == rest + TailText(tail);
      WithoutFlag(ostr, c, rest, tail);
      MeaningOfFlag(ostr, c, rest, tail);
      ScanFlag(argv, ostr, i, text);
      if text[1..] != "" {
        ScansLetters(argv, ostr, i, rest, tail);
      } else {
        MeaningOfFlag(ostr, c, "", tail);
        NoTailFound(ostr);
      }
    }
  }

  lemma NoTailFound(ostr: string)
    ensures TailFound(ostr, NoTail) == []
  {
  }

  lemma EmptyGroup(ostr: string, tail: Tail)
    requires WellFormed(ostr, Group("", tail))
    ensures !tail.NoTail?
  {
  }

  /** A group stays one without its first letter, unless that was all of it. */
  lemma WithoutFlag(ostr: string, c: char, rest: string, tail: Tail)
    requires WellFormed(ostr, Group([c] + rest, tail))
    ensures IsFlag(ostr, c)
    ensures if rest + TailText(tail) == "" then rest == "" && tail.NoTail? else WellFormed(ostr, Group(rest, tail))
  {
    hide IsFlag, IsKeyed;
    assert ([c] + rest)[0] == c;
    assert forall d <- rest :: d in [c] + rest;
  }

  /** A fresh argument is entered behind its dash. */
  lemma EntersArgument(argv: seq<string>, ostr: string, i: nat)
    requires i < |argv| && |argv[i]| > 1 && argv[i][0] == '-' && argv[i][1] != '-'
    ensures Scan(argv, ostr, Cursor("", i)) == Scan(argv, ostr, Cursor(argv[i][1..], i))
  {
    hide Scan;
    ScanStep(argv, ostr, Cursor("", i));
    ScanStep(argv, ostr, Cursor(argv[i][1..], i));
  }

  /**
   Where the options end: at the end, at an operand, at an argument that starts with two
   dashes, or at a single dash that is no option.
   */
  predicate EndsOptions(ostr: string, rest: seq<string>)
  {
    rest == [] || rest[0] == "" || rest[0][0] != '-' || (|rest[0]| > 1 && rest[0][1] == '-') || (rest[0] == "-" && '-' !in ostr)
  }

  /** Two dashes are passed over; nothing else is. */
  function Consumed(rest: seq<string>): nat
  {
    if rest != [] && |rest[0]| > 1 && rest[0][0] == '-' then 1 else 0
  }

  lemma GroupAt(argv: seq<string>, i: nat, g: Group, more: seq<string>)
    requires i <= |argv| && argv[i..] == PrintGroup(g) + more && (g.tail.Missing? ==> more == [])
    ensures var w := if g.tail.Separate? then 2 else 1;
            && |PrintGroup(g)| == w && i + w <= |argv| && argv[i] == PrintGroup(g)[0]
            && Follows(argv, i, g.tail) && argv[i + w..] == more
  {
    var w := |PrintGroup(g)|;
    assert argv[i] == argv[i..][0];
    assert w == 2 ==> argv[i + 1] == argv[i..][1];
    assert argv[i + w..] == argv[i..][w..];
  }

  lemma ScansEnd(argv: seq<string>, ostr: string, i: nat, rest: seq<string>)
    requires i <= |argv| && argv[i..] == rest && EndsOptions(ostr, rest)
    ensures Scan(argv, ostr, Cursor("", i)) == Run([], Cursor("", i + Consumed(rest)))
  {
    hide Scan, TakesArg;
    assert rest != [] ==> rest[0] == argv[i];
    assert "-"[1..] == "";
    ScanStep(argv, ostr, Cursor("", i));
  }

  lemma ScansGroup(argv: seq<string>, ostr: string, i: nat, g: Group, more: seq<string>)
    requires i <= |argv| && argv[i..] == PrintGroup(g) + more && WellFormed(ostr, g) && (g.tail.Missing? ==> more == [])
    ensures var next := i + |PrintGroup(g)|;
            && next <= |argv| && argv[next..] == more
            && Scan(argv, ostr, Cursor("", i)).found == Meaning(ostr, g) + Scan(argv, ostr, Cursor("", next)).found
            && Scan(argv, ostr, Cursor("", i)).end == Scan(argv, ostr, Cursor("", next)).end
  {
    hide Scan, WellFormed, Meaning, TailText, Follows;
    PrintedGroup(ostr, g);
    GroupAt(argv, i, g, more);
    EntersArgument(argv, ostr, i);
    assert argv[i][1..] == g.flags + TailText(g.tail);
    ScansLetters(argv, ostr, i, g.flags, g.tail);
  }

  /**
   Printed options are found again in order, however they are grouped, and the operands are
   left. Unknown letters and a missing argument at the very end are reported in their place.
   */
  lemma {:induction false} ScansPrinted(argv: seq<string>, ostr: string, i: nat, gs: seq<Group>, rest: seq<string>)
    requires i <= |argv| && argv[i..] == PrintGroups(gs) + rest && EndsOptions(ostr, rest)
    requires forall g <- gs :: WellFormed(ostr, g)
    requires forall k | 0 <= k < |gs| && gs[k].tail.Missing? :: k == |gs| - 1 && rest == []
    ensures Scan(argv, ostr, Cursor("", i)) == Run(Meanings(ostr, gs), Cursor("", i + |PrintGroups(gs)| + Consumed(rest)))
    decreases |gs|
  {
    hide Scan, WellFormed, Meaning, PrintGroup, EndsOptions, Consumed;
    if gs == [] {
      assert argv[i..] == rest;
      ScansEnd(argv, ostr, i, rest);
    } else {
      var more := PrintGroups(gs[1..]) + rest;
      assert argv[i..] == PrintGroup(gs[0]) + more;
      assert gs[0].tail.Missing? ==> gs[1..] == [];
      ScansGroup(argv, ostr, i, gs[0], more);
      ScansPrinted(argv, ostr, i + |PrintGroup(gs[0])|, gs[1..], rest);
    }
  }

  lemma PrintedGroup(ostr: string, g: Group)
    requires WellFormed(ostr, g)
    ensures |PrintGroup(g)[0]| > 1 && PrintGroup(g)[0][0] == '-' && PrintGroup(g)[0][1] != '-'
  {
    hide TakesArg, IsOption;
    if g.flags != "" { assert g.flags[0] in g.flags && IsFlag(ostr, g.flags[0]); }
  }

  // ----- Going on after the end was reported

  lemma {:induction false} OptindGrows(argv: seq<string>, ostr: string, cur: Cursor)
    requires Valid(argv, cur)
    ensures Scan(argv, ostr, cur).end.optind >= cur.optind
    decreases Unscanned(argv, cur)
  {
    hide Next, Scan, Unscanned;
    ScanStep(argv, ostr, cur);
    NextOptind(argv, ostr, cur);
    var s := Next(argv, ostr, cur);
    if s.ret != Eof { OptindGrows(argv, ostr, s.cursor); }
  }

  lemma NextOptind(argv: seq<string>, ostr: string, cur: Cursor)
    requires Valid(argv, cur)
    ensures Next(argv, ostr, cur).cursor.optind >= cur.optind
  {
    hide IsOption, TakesArg, IsSuffix;
  }

  /** Letters the scanner passes within an argument, and then a '-' that ends it. */
  predicate EndsInDash(ostr: string, text: string)
  {
    && text != "" && text[|text| - 1] == '-' && !IsOption(ostr, '-')
    && forall k | 0 <= k < |text| - 1 :: text[k] != '-' && !IsKeyed(ostr, text[k])
  }

  lemma NextLetter(argv: seq<string>, ostr: string, i: nat, text: string)
    requires text != "" && Valid(argv, Cursor(text, i)) && !IsOption(ostr, text[0])
    ensures Next(argv, ostr, Cursor(text, i))
            == if text[0] == '-' then Step(Cursor(text[1..], i), Eof, Some('-'), Keep)
               else Step(Past(text[1..], i), Letter(BADCH), Some(text[0]), Keep)
  {
    hide TakesArg;
  }

  lemma NextOption(argv: seq<string>, ostr: string, i: nat, text: string)
    requires text != "" && Valid(argv, Cursor(text, i)) && IsOption(ostr, text[0])
    ensures var s := Next(argv, ostr, Cursor(text, i));
            s.ret != Eof && if TakesArg(ostr, text[0]) then s.cursor.place == "" && s.cursor.optind > i
                            else s.cursor == Past(text[1..], i)
  {
    hide TakesArg;
  }

  lemma {:induction false} LettersReturn(argv: seq<string>, ostr: string, i: nat, text: string)
    requires text != "" && Valid(argv, Cursor(text, i))
    ensures Scan(argv, ostr, Cursor(text, i)).end == Cursor("", i) <==> EndsInDash(ostr, text)
    decreases |text|
  {
    hide Scan, Next, TakesArg, IsOption;
    var c, rest := text[0], text[1..];
    ScanStep(argv, ostr, Cursor(text, i));
    if IsOption(ostr, c) { NextOption(argv, ostr, i, text); } else { NextLetter(argv, ostr, i, text); }
    var s := Next(argv, ostr, Cursor(text, i));
    if s.ret != Eof {
      OptindGrows(argv, ostr, s.cursor);
      if s.cursor == Cursor(rest, i) {
        LettersReturn(argv, ostr, i, rest);
        DashAfterLetter(ostr, c, rest);
        assert text == [c] + rest;
      }
    }
  }

  lemma DashAfterLetter(ostr: string, c: char, rest: string)
    requires rest != ""
    ensures EndsInDash(ostr, [c] + rest) <==> EndsInDash(ostr, rest) && c != '-' && !IsKeyed(ostr, c)
  {
    hide IsKeyed;
    var text := [c] + rest;
    assert text[0] == c && forall k | 0 <= k < |rest| :: text[k + 1] == rest[k];
  }

  /**
   A scan that finds something comes back to the argument it started with, so that the
   next one finds the same again, exactly if that argument is a cluster of letters
   without arguments that ends in an undeclared '-'.
   */
  lemma ComesBack(argv: seq<string>, ostr: string, i: nat)
    requires i < |argv|
    ensures var run := Scan(argv, ostr, Cursor("", i));
            run.end == Cursor("", i) && run.found != []
            <==> |argv[i]| > 2 && argv[i][0] == '-' && EndsInDash(ostr, argv[i][1..])
  {
    hide Scan, EndsInDash;
    var w := argv[i];
    if |w| > 1 && w[0] == '-' && w[1] != '-' {
      FindsInside(argv, ostr, i);
      LettersReturn(argv, ostr, i, w[1..]);
      OneLetter(ostr, w);
    } else {
      FindsNothingHere(argv, ostr, i);
      if |w| > 2 && w[0] == '-' { DoubleDash(ostr, w); }
    }
  }

  lemma OneLetter(ostr: string, w: string)
    requires |w| > 1 && w[1] != '-'
    ensures EndsInDash(ostr, w[1..]) ==> |w| > 2
  {
  }

  lemma DoubleDash(ostr: string, w: string)
    requires |w| > 2 && w[1] == '-'
    ensures !EndsInDash(ostr, w[1..])
  {
    assert w[1..][0] == '-';
  }

  lemma FindsInside(argv: seq<string>, ostr: string, i: nat)
    requires i < |argv| && |argv[i]| > 1 && argv[i][0] == '-' && argv[i][1] != '-'
    ensures Scan(argv, ostr, Cursor("", i)) == Scan(argv, ostr, Cursor(argv[i][1..], i))
    ensures Scan(argv, ostr, Cursor("", i)).found != []
  {
    hide Scan, Next, IsOption;
    var text := argv[i][1..];
    EntersArgument(argv, ostr, i);
    ScanStep(argv, ostr, Cursor(text, i));
    if IsOption(ostr, text[0]) { NextOption(argv, ostr, i, text); } else { NextLetter(argv, ostr, i, text); }
  }

  lemma FindsNothingHere(argv: seq<string>, ostr: string, i: nat)
    requires i < |argv| && !(|argv[i]| > 1 && argv[i][0] == '-' && argv[i][1] != '-')
    ensures Scan(argv, ostr, Cursor("", i)).found == [] || Scan(argv, ostr, Cursor("", i)).end.optind > i
  {
    hide Scan, Next;
    NextOutside(argv, ostr, i);
    ScanStep(argv, ostr, Cursor("", i));
    var s := Next(argv, ostr, Cursor("", i));
    if s.ret != Eof { OptindGrows(argv, ostr, s.cursor); }
  }

  lemma NextOutside(argv: seq<string>, ostr: string, i: nat)
    requires i < |argv| && !(|argv[i]| > 1 && argv[i][0] == '-' && argv[i][1] != '-')
    ensures var s := Next(argv, ostr, Cursor("", i)); s.ret == Eof || s.cursor.optind > i
  {
    hide TakesArg, IsOption, Dispatch;
    var text := Refresh(argv, Cursor("", i)).0;
    if text.Some? {
      assert text.value == "-" && "-"[1..] == "";
      SingleDash(argv, ostr, i);
    }
  }

  lemma SingleDash(argv: seq<string>, ostr: string, i: nat)
    ensures var s := Dispatch(argv, ostr, "-", i); s.ret == Eof || s.cursor.optind > i
  {
    hide TakesArg;
    assert "-"[1..] == "";
  }

  /** For instance "-a-": the option is found and the argument is not left. */
  lemma DashCluster()
    ensures Scan(["x", "-a-"], "a", Cursor("", 1)) == Run([Found('a', None)], Cursor("", 1))
  {
    var argv := ["x", "-a-"];
    hide Scan;
    ScanStep(argv, "a", Cursor("", 1));
    assert "-a-"[1..] == "a-" && "a-"[1..] == "-" && "-"[1..] == "";
    assert Next(argv, "a", Cursor("", 1)) == Step(Cursor("-", 1), Letter('a'), Some('a'), Set(None));
    ScanStep(argv, "a", Cursor("-", 1));
  }
}
