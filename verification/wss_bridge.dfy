/**
 * The WebSocket bridge of `wss.cc`: `BasePathOf`, the handler of the lines
 * the WebSocket helper prints (`+N` on connect, `-N` on disconnect, `N<TAB>text`
 * per message), and the dispatcher that writes `id\nmessage\n` frames back.
 * The two threads meet in a `State` under a lock; here each handled line and
 * each dispatcher round is one step on an immutable `Bridge`.
 */
module WssBridge {
  import opened Wrappers
  import opened Decimal
  import opened Texts
  import CText
  import Ordered
  import MsgReplier

  // Paths.

  /** `current::FileSystem::GetPathSeparator()` on the targets the source builds for. */
  const Sep: char := '/'

  /** A path component: non-empty and without a separator. */
  predicate IsComponent(p: string) {
    |p| > 0 && Sep !in p
  }

  predicate Components(ps: seq<string>) {
    forall i :: 0 <= i < |ps| ==> IsComponent(ps[i])
  }

  /** `current::strings::Split` by the separator, skipping empty fields. */
  function Split(s: string): (parts: seq<string>)
    ensures Components(parts)
    ensures |parts| > 0 ==> |s| > 0
    decreases |s|
  {
    if |s| == 0 then []
    else if s[0] == Sep then Split(s[1..])
    else
      var w := UpTo(s, Sep);
      [w] + Split(s[|w|..])
  }

  /** `current::strings::Join` with the separator. */
  function Join(parts: seq<string>): (r: string)
    ensures |parts| > 0 ==> parts[0] <= r
  {
    if |parts| == 0 then ""
    else if |parts| == 1 then parts[0]
    else parts[0] + [Sep] + Join(parts[1..])
  }

  /** Splitting undoes joining. */
  lemma {:induction false} SplitJoin(parts: seq<string>)
    requires Components(parts)
    ensures Split(Join(parts)) == parts
  {
    if |parts| == 1 {
      UpToAll(parts[0], Sep);
      assert parts[0][|parts[0]|..] == "";
    } else if |parts| > 1 {
      var p, rest := parts[0], Join(parts[1..]);
      assert Join(parts) == p + ([Sep] + rest);
      UpToOf(p, Sep, [Sep] + rest);
      assert Join(parts)[|p|..] == [Sep] + rest;
      assert ([Sep] + rest)[1..] == rest;
      SplitJoin(parts[1..]);
      assert parts == [p] + parts[1..];
    }
  }

  /** A separator at the end adds only an empty field, which is skipped. */
  lemma {:induction false} SplitTrailingSep(s: string)
    ensures Split(s + [Sep]) == Split(s)
    decreases |s|
  {
    if |s| == 0 {
      assert Split([Sep]) == Split([Sep][1..]);
    } else if s[0] == Sep {
      assert (s + [Sep])[1..] == s[1..] + [Sep];
      SplitTrailingSep(s[1..]);
    } else {
      var w := UpTo(s, Sep);
      UpToAppendDelim(s, Sep);
      assert (s + [Sep])[|w|..] == s[|w|..] + [Sep];
      SplitTrailingSep(s[|w|..]);
    }
  }

  /**
   * `BasePathOf`: the path without its last component, absolute exactly when
   * the input is. None where the source would pop from an empty vector (a
   * path with no component at all).
   */
  function BasePathOf(s: string): (r: Option<string>)
    ensures r.None? <==> |Split(s)| == 0
    ensures r.Some? ==> (|r.value| > 0 && r.value[0] == Sep <==> s[0] == Sep)
  {
    var parts := Split(s);
    if |parts| == 0 then None
    else
      var dirs := parts[..|parts| - 1];
      var res := Join(dirs);
      assert |dirs| > 0 ==> dirs[0][0] != Sep by {
        if |dirs| > 0 {
          assert IsComponent(parts[0]);
        }
      }
      Some(if s[0] == Sep then "/" + res else res)
  }

  /** The path a list of components spells, with a leading separator when absolute. */
  function PathOf(absolute: bool, comps: seq<string>): string {
    (if absolute then "/" else "") + Join(comps)
  }

  /** Dropping the last of the components a path spells leaves the path of the others. */
  lemma BasePathOfPath(absolute: bool, dirs: seq<string>, last: string)
    requires Components(dirs) && IsComponent(last)
    ensures BasePathOf(PathOf(absolute, dirs + [last])) == Some(PathOf(absolute, dirs))
  {
    var comps := dirs + [last];
    var j := Join(comps);
    SplitJoin(comps);
    assert comps[0] <= j && IsComponent(comps[0]);
    var path := PathOf(absolute, comps);
    if absolute {
      assert path[1..] == j;
      assert Split(path) == Split(j);
      assert path[0] == Sep;
    } else {
      assert path == j && path[0] == comps[0][0] != Sep;
    }
    assert Split(path) == comps;
    assert comps[..|comps| - 1] == dirs;
    assert "" + Join(dirs) == Join(dirs);
  }

  /** A trailing separator does not count as a component. */
  lemma TrailingSepIgnored(s: string)
    requires |s| > 0
    ensures BasePathOf(s + [Sep]) == BasePathOf(s)
  {
    SplitTrailingSep(s);
  }

  // The lines the WebSocket helper prints.

  /** One line of the helper's output: a connection opened or closed, or a message from one. */
  datatype Event = Opened(id: int) | Closed(id: int) | Message(id: int, text: string)

  /** `current::FromString<int>`: a leading decimal number, or 0 where there is none. */
  function FromString(s: string): (v: int)
    ensures ScanInt(s, 0).Converted? ==> v == ScanInt(s, 0).value
    ensures !ScanInt(s, 0).Converted? ==> v == 0
  {
    match ScanInt(s, 0)
    case Converted(v, _) => v
    case _ => 0
  }

  /** `sscanf`'s return value for one `%d`: 1 on a conversion, 0 on a mismatch, `EOF` on empty input. */
  function SscanfCount(scan: Scan): (n: int)
    ensures -1 <= n <= 1
    ensures n == 1 <==> scan.Converted?
  {
    match scan
    case Converted(_, _) => 1
    case NoMatch => 0
    case EndOfInput => -1
  }

  /**
   * The line handler's reading, as written. Every branch reads the line
   * through `c_str()`, so only the text before its first NUL counts. The
   * message text is taken from the pointer advanced by `sscanf`'s return
   * value and then by one, which is two characters in after any number,
   * however many digits it has. When no number is read, `id` is left
   * uninitialised: its value is `junk`. None where the pointer lands past
   * the terminator (a C string of one digit).
   */
  function ParseAsWritten(line: string, junk: int): (r: Option<Event>)
    ensures |line| > 0 && line[0] == '+' ==> r == Some(Opened(FromString(CText.CStr(line)[1..])))
    ensures |line| > 0 && line[0] == '-' ==> r == Some(Closed(FromString(CText.CStr(line)[1..])))
    ensures r.Some? && r.value.Message? ==> CText.NoNul(r.value.text)
    ensures r.None? <==> |CText.CStr(line)| == 1 && IsDigit(line[0])
  {
    var c := CText.CStr(line);
    if |line| > 0 && line[0] == '+' then Some(Opened(FromString(c[1..])))
    else if |line| > 0 && line[0] == '-' then Some(Closed(FromString(c[1..])))
    else
      var scan := ScanInt(c, 0);
      var id := if scan.Converted? then scan.value else junk;
      var off := SscanfCount(scan) + 1;
      if off <= |c| then Some(Message(id, c[off..])) else None
  }

  /**
   * The reading evidently intended: the text starts right after the number
   * and the tab that follows it. A line that starts with no number carries
   * no sender and is ignored. The line is still read through `c_str()`.
   */
  function Parse(line: string): (r: Option<Event>)
    ensures |line| > 0 && line[0] == '+' ==> r == Some(Opened(FromString(CText.CStr(line)[1..])))
    ensures |line| > 0 && line[0] == '-' ==> r == Some(Closed(FromString(CText.CStr(line)[1..])))
    ensures r.Some? && r.value.Message? ==> CText.NoNul(r.value.text)
    ensures r.None? <==> !(|line| > 0 && (line[0] == '+' || line[0] == '-')) && !ScanInt(CText.CStr(line), 0).Converted?
  {
    var c := CText.CStr(line);
    if |line| > 0 && line[0] == '+' then Some(Opened(FromString(c[1..])))
    else if |line| > 0 && line[0] == '-' then Some(Closed(FromString(c[1..])))
    else
      match ScanInt(c, 0)
      case Converted(id, e) => Some(Message(id, if e < |c| then c[e + 1..] else ""))
      case _ => None
  }

  /** Both readings see the line only up to its first NUL. */
  lemma NulEndsLine(line: string, rest: string, junk: int)
    requires CText.NoNul(line)
    ensures Parse(line + [CText.NUL] + rest) == Parse(line)
    ensures ParseAsWritten(line + [CText.NUL] + rest, junk) == ParseAsWritten(line, junk)
  {
    CText.CStrStopsAtNul(line, rest);
    CText.CStrOfNoNul(line);
  }

  /** What the helper prints for a message: the connection's index, a tab, the text. */
  function MessageLine(id: nat, text: string): string {
    IntToString(id) + "\t" + text
  }

  /** `+N` reads back as connection `N` opening, `-N` as it closing. */
  lemma ParseConnectLines(id: nat)
    ensures Parse("+" + IntToString(id)) == Some(Opened(id))
    ensures Parse("-" + IntToString(id)) == Some(Closed(id))
    ensures ParseAsWritten("+" + IntToString(id), 0) == Parse("+" + IntToString(id))
    ensures ParseAsWritten("-" + IntToString(id), 0) == Parse("-" + IntToString(id))
  {
    ScanIntToString("", id, "");
    assert "" + IntToString(id) + "" == IntToString(id);
    SignedNoNul('+', IntToString(id));
    SignedNoNul('-', IntToString(id));
    CText.CStrOfNoNul("+" + IntToString(id));
    CText.CStrOfNoNul("-" + IntToString(id));
    assert ("+" + IntToString(id))[1..] == IntToString(id);
    assert ("-" + IntToString(id))[1..] == IntToString(id);
  }

  /** A message line reads back as its sender and its text. */
  lemma ParseMessageLine(id: nat, text: string)
    requires CText.NoNul(text)
    ensures Parse(MessageLine(id, text)) == Some(Message(id, text))
  {
    var n := IntToString(id);
    var line := MessageLine(id, text);
    ScanIntToString("", id, "\t" + text);
    assert "" + n + ("\t" + text) == line;
    DigitsTabNoNul(n, text);
    CText.CStrOfNoNul(line);
    assert line[|n| + 1..] == text;
  }

  /** For a one-digit sender the reading as written is the intended one. */
  lemma AsWrittenOneDigit(id: nat, text: string, junk: int)
    requires id < 10 && CText.NoNul(text)
    ensures ParseAsWritten(MessageLine(id, text), junk) == Parse(MessageLine(id, text))
  {
    var n := IntToString(id);
    ScanIntToString("", id, "\t" + text);
    assert "" + n + ("\t" + text) == MessageLine(id, text);
    assert |n| == 1;
    DigitsTabNoNul(n, text);
    CText.CStrOfNoNul(MessageLine(id, text));
  }

  /** The text as written starts two characters into a line that opens with a number. */
  lemma AsWrittenTextAt(line: string, id: int, e: nat, junk: int)
    requires 2 <= |line| && line[0] != '+' && line[0] != '-' && CText.NoNul(line)
    requires ScanInt(line, 0) == Converted(id, e)
    ensures ParseAsWritten(line, junk) == Some(Message(id, line[2..]))
  {
    CText.CStrOfNoNul(line);
  }

  lemma TwoDigitsOrMore(id: nat)
    requires id >= 10
    ensures |IntToString(id)| >= 2
  {
    assert NatToString(id) == NatToString(id / 10) + [DigitChar(id % 10)];
  }

  /** Digits, a tab and a text without NUL contain no NUL. */
  lemma DigitsTabNoNul(ds: string, text: string)
    requires AllDigits(ds) && CText.NoNul(text)
    ensures CText.NoNul(ds + "\t" + text)
  {
    var s := ds + "\t" + text;
    forall i | 0 <= i < |s| ensures s[i] != CText.NUL {
      if i < |ds| {
        assert s[i] == ds[i] && IsDigit(ds[i]);
      } else if i > |ds| {
        assert s[i] == text[i - |ds| - 1];
      }
    }
  }

  /** A sign followed by digits contains no NUL. */
  lemma SignedNoNul(sign: char, ds: string)
    requires sign != CText.NUL && AllDigits(ds)
    ensures CText.NoNul([sign] + ds)
  {
    var s := [sign] + ds;
    forall i | 0 <= i < |s| ensures s[i] != CText.NUL {
      if i > 0 {
        assert s[i] == ds[i - 1] && IsDigit(ds[i - 1]);
      }
    }
  }

  /**
   * For a sender of two digits or more the reading as written keeps the
   * digits after the first two and the tab in the text.
   */
  lemma AsWrittenManyDigits(id: nat, text: string, junk: int)
    requires id >= 10 && CText.NoNul(text)
    ensures ParseAsWritten(MessageLine(id, text), junk)
         == Some(Message(id, IntToString(id)[2..] + "\t" + text))
  {
    var n := IntToString(id);
    TwoDigitsOrMore(id);
    ScanOfMessageLine(id, text);
    MessageLineLayout(n, text);
    DigitsTabNoNul(n, text);
    AsWrittenTextAt(MessageLine(id, text), id, |n|, junk);
  }

  /** A message line starts with the sender's number, read back in full. */
  lemma ScanOfMessageLine(id: nat, text: string)
    ensures ScanInt(MessageLine(id, text), 0) == Converted(id, |IntToString(id)|)
  {
    ScanIntToString("", id, "\t" + text);
    assert "" + IntToString(id) + ("\t" + text) == MessageLine(id, text);
  }

  lemma MessageLineLayout(n: string, text: string)
    requires |n| >= 2 && AllDigits(n)
    ensures var line := n + "\t" + text;
            && 2 <= |line| && IsDigit(line[0]) && line[2..] == n[2..] + "\t" + text
  {
    assert (n + "\t" + text)[0] == n[0];
  }

  lemma TwelveIs()
    ensures IntToString(12) == "12"
  {
    assert NatToString(12) == NatToString(1) + [DigitChar(2)];
  }

  /** Client 12 typing `stop` is read as written as the text `"\tstop"`, not as `stop`. */
  lemma AsWrittenMisreadsStop(junk: int)
    ensures ParseAsWritten(MessageLine(12, "stop"), junk) == Some(Message(12, "\tstop"))
    ensures Parse(MessageLine(12, "stop")) == Some(Message(12, "stop"))
  {
    AsWrittenManyDigits(12, "stop", junk);
    TwelveIs();
    assert IntToString(12)[2..] + "\t" + "stop" == "\tstop";
    ParseMessageLine(12, "stop");
  }

  // The shared state and the line handler.

  /**
   * `State` of the bridge thread, plus the stop flag it raises and the
   * globals of the `msgreplier` library (none while that library cannot be
   * used). Sets of connection indices are ascending lists.
   */
  datatype Bridge = Bridge(
    dying: bool,
    conns: seq<int>,
    toGreet: seq<int>,
    broadcasts: seq<(int, string)>,
    stop: bool,
    replier: Option<MsgReplier.Replier>)

  predicate IntSet(s: seq<int>) {
    Ordered.SortedSet(s, Ordered.IntLess)
  }

  /** Both sets are ascending, and every client waiting for a greeting is connected. */
  predicate Valid(b: Bridge) {
    && IntSet(b.conns) && IntSet(b.toGreet)
    && forall x :: x in b.toGreet ==> x in b.conns
  }

  function NewBridge(replier: Option<MsgReplier.Replier>): (b: Bridge)
    ensures Valid(b)
  {
    Bridge(false, [], [], [], false, replier)
  }

  /** `std::set<int>::insert`. */
  function Insert(s: seq<int>, x: int): (r: seq<int>)
    requires IntSet(s)
    ensures IntSet(r)
    ensures forall y :: y in r <==> y == x || y in s
  {
    Ordered.IntLessIsStrictTotalOrder();
    Ordered.SetInsert(s, x, Ordered.IntLess)
  }

  /** `std::set<int>::erase`. */
  function Remove(s: seq<int>, x: int): (r: seq<int>)
    requires IntSet(s)
    ensures IntSet(r)
    ensures forall y :: y in r <==> y != x && y in s
  {
    Ordered.IntLessIsStrictTotalOrder();
    Ordered.SetRemove(s, x, Ordered.IntLess)
  }

  /** `ReplyToAll` for each reply: queued as broadcasts from index 0, the server. */
  function FromServer(replies: seq<string>): (r: seq<(int, string)>)
    ensures |r| == |replies|
    ensures forall i :: 0 <= i < |r| ==> r[i] == (0, replies[i])
  {
    if |replies| == 0 then [] else [(0, replies[0])] + FromServer(replies[1..])
  }

  /**
   * One line's effect: a connection joins both sets or leaves both; `stop`
   * queues `stopping` from the server and raises the stop flag; any other
   * text is queued from its sender and shown to the `msgreplier` library,
   * whose replies are queued from the server after it.
   */
  function Apply(b: Bridge, ev: Event): (r: Bridge)
    requires Valid(b)
    ensures Valid(r)
    ensures r.dying == b.dying
    ensures ev.Opened? ==> r == b.(conns := Insert(b.conns, ev.id), toGreet := Insert(b.toGreet, ev.id))
    ensures ev.Closed? ==> r == b.(conns := Remove(b.conns, ev.id), toGreet := Remove(b.toGreet, ev.id))
    ensures ev.Message? && ev.text == "stop" ==>
              r == b.(broadcasts := b.broadcasts + [(0, "stopping")], stop := true)
    ensures ev.Message? && ev.text != "stop" ==>
              && r.conns == b.conns && r.toGreet == b.toGreet && r.stop == b.stop
              && b.broadcasts + [(ev.id, ev.text)] <= r.broadcasts
              && (b.replier.None? ==> r == b.(broadcasts := b.broadcasts + [(ev.id, ev.text)]))
    ensures r.stop != b.stop ==> ev.Message? && ev.text == "stop"
  {
    match ev
    case Opened(id) => b.(conns := Insert(b.conns, id), toGreet := Insert(b.toGreet, id))
    case Closed(id) => b.(conns := Remove(b.conns, id), toGreet := Remove(b.toGreet, id))
    case Message(id, text) =>
      if text == "stop" then b.(broadcasts := b.broadcasts + [(0, "stopping")], stop := true)
      else
        var queued := b.broadcasts + [(id, text)];
        match b.replier
        case None => b.(broadcasts := queued)
        case Some(rs) =>
          var (rs1, replies) := MsgReplier.OnBroadcast(rs, true, text);
          b.(broadcasts := queued + FromServer(replies), replier := Some(rs1))
  }

  /** The line handler with the intended reading: an unreadable line changes nothing. */
  function Handle(b: Bridge, line: string): (r: Bridge)
    requires Valid(b)
    ensures Valid(r)
    ensures Parse(line).None? ==> r == b
  {
    match Parse(line)
    case None => b
    case Some(ev) => Apply(b, ev)
  }

  /** The line handler as written; none where it reads past the line. */
  function HandleAsWritten(b: Bridge, line: string, junk: int): (r: Option<Bridge>)
    requires Valid(b)
    ensures r.Some? ==> Valid(r.value)
    ensures r.None? <==> |CText.CStr(line)| == 1 && IsDigit(line[0])
  {
    match ParseAsWritten(line, junk)
    case None => None
    case Some(ev) => Some(Apply(b, ev))
  }

  /** `-N` undoes `+N` for a connection that was not open. */
  lemma OpenThenClose(b: Bridge, id: nat)
    requires Valid(b) && id !in b.conns
    ensures Handle(Handle(b, "+" + IntToString(id)), "-" + IntToString(id)) == b
  {
    ParseConnectLines(id);
    var b1 := Handle(b, "+" + IntToString(id));
    var b2 := Handle(b1, "-" + IntToString(id));
    Ordered.IntLessIsStrictTotalOrder();
    Ordered.SortedSetsWithSameMembers(b2.conns, b.conns, Ordered.IntLess);
    Ordered.SortedSetsWithSameMembers(b2.toGreet, b.toGreet, Ordered.IntLess);
  }

  /** A printed sum is never the word `stop`. */
  lemma SumTextIsNotStop(a: int, x: int)
    ensures IntToString(a) + "+" + IntToString(x) != "stop"
  {
    var text := IntToString(a) + "+" + IntToString(x);
    assert IntToString(a)[0] != 's';
    assert text[0] == IntToString(a)[0];
  }

  /**
   * With the `msgreplier` library loaded, a sum typed by a client is queued,
   * followed by the library's answer from the server.
   */
  lemma SumAnswered(b: Bridge, id: nat, a: int, x: int)
    requires Valid(b) && b.replier.Some? && b.replier.value.welcomeSent
    requires MsgReplier.SumFits(a, x, b.replier.value.c)
    ensures var text := IntToString(a) + "+" + IntToString(x);
            Apply(b, Message(id, text)).broadcasts
              == b.broadcasts + [(id, text), (0, MsgReplier.SumReply(a, x, b.replier.value.c))]
  {
    var text := IntToString(a) + "+" + IntToString(x);
    var rs := b.replier.value;
    var reply := MsgReplier.SumReply(a, x, rs.c);
    MsgReplier.AnswersSum(rs, a, x);
    var answer := MsgReplier.OnBroadcast(rs, true, text);
    assert answer.1 == [] + [reply] == [reply];
    SumTextIsNotStop(a, x);
    assert FromServer([reply]) == [(0, reply)] + FromServer([]);
    assert Apply(b, Message(id, text)).broadcasts == b.broadcasts + [(id, text)] + FromServer(answer.1);
  }

  // The dispatcher.

  /** What is written to the helper's standard input for one client: its index, then the text, one line each. */
  function Frame(id: int, text: string): string {
    IntToString(id) + "\n" + text + "\n"
  }

  /** How the helper reads a frame back: the target index and the text to send it. */
  function ReadFrame(w: string): (r: Option<(int, string)>)
    ensures r.Some? ==> '\n' !in r.value.1
  {
    var t := UpTo(w, '\n');
    if |t| == |w| then None
    else
      var rest := w[|t| + 1..];
      var text := UpTo(rest, '\n');
      if rest != text + "\n" then None
      else match ScanInt(t, 0)
        case Converted(id, e) => if e == |t| then Some((id, text)) else None
        case _ => None
  }

  lemma NoNewlineInNumber(i: int)
    ensures '\n' !in IntToString(i)
  {
    var s := IntToString(i);
    if i < 0 {
      assert s[1..] == NatToString(-i);
      assert forall k :: 1 <= k < |s| ==> IsDigit(s[k]) by {
        forall k | 1 <= k < |s| ensures IsDigit(s[k]) {
          assert s[k] == NatToString(-i)[k - 1];
        }
      }
    }
  }

  lemma ReadFrameOfLines(t: string, text: string, id: int)
    requires '\n' !in t && '\n' !in text
    requires ScanInt(t, 0) == Converted(id, |t|)
    ensures ReadFrame(t + "\n" + text + "\n") == Some((id, text))
  {
    var w := t + "\n" + text + "\n";
    UpToOf(t, '\n', "\n" + text + "\n");
    assert t + ("\n" + text + "\n") == w;
    var rest := w[|t| + 1..];
    assert rest == text + "\n";
    UpToOf(text, '\n', "\n");
  }

  /** A frame is read back as the client it is for and the text it carries. */
  lemma ReadFrameOfFrame(id: int, text: string)
    requires '\n' !in text
    ensures ReadFrame(Frame(id, text)) == Some((id, text))
  {
    var n := IntToString(id);
    NoNewlineInNumber(id);
    ScanIntToString("", id, "");
    assert "" + n + "" == n;
    ReadFrameOfLines(n, text, id);
  }

  /** `GitCommit().substr(0u, 7u)`: at most the first seven characters. */
  function ShortCommit(commit: string): (r: string)
    ensures r <= commit && |r| == if |commit| < 7 then |commit| else 7
  {
    if |commit| < 7 then commit else commit[..7]
  }

  /** The two lines a newly connected client receives: the server's commit and its own index. */
  function Greeting(id: int, commit: string): (ws: seq<string>)
    ensures |ws| == 2
  {
    [Frame(id, "# server " + ShortCommit(commit)), Frame(id, "# you are client index " + IntToString(id))]
  }

  function GreetWrites(ids: seq<int>, commit: string): (ws: seq<string>)
    ensures |ws| == 2 * |ids|
    ensures forall i :: 0 <= i < |ids| ==> ws[2 * i..2 * i + 2] == Greeting(ids[i], commit)
  {
    if |ids| == 0 then []
    else
      var tail := GreetWrites(ids[1..], commit);
      assert forall i :: 1 <= i < |ids| ==> (Greeting(ids[0], commit) + tail)[2 * i..2 * i + 2] == tail[2 * (i - 1)..2 * (i - 1) + 2];
      Greeting(ids[0], commit) + tail
  }

  /** The text a broadcast shows: its sender, `> `, and what was said. */
  function Relayed(e: (int, string)): string {
    IntToString(e.0) + "> " + e.1
  }

  /** One broadcast to every connection but its sender, in ascending order. */
  function Relay(e: (int, string), conns: seq<int>): (ws: seq<string>)
    ensures forall w :: w in ws ==> exists id :: id in conns && id != e.0 && w == Frame(id, Relayed(e))
    ensures forall id :: id in conns && id != e.0 ==> Frame(id, Relayed(e)) in ws
  {
    if |conns| == 0 then []
    else
      var tail := Relay(e, conns[1..]);
      assert forall id :: id in conns ==> id == conns[0] || id in conns[1..];
      (if conns[0] != e.0 then [Frame(conns[0], Relayed(e))] else []) + tail
  }

  function BroadcastWrites(bs: seq<(int, string)>, conns: seq<int>): seq<string> {
    if |bs| == 0 then [] else Relay(bs[0], conns) + BroadcastWrites(bs[1..], conns)
  }

  function DyingWrites(conns: seq<int>): (ws: seq<string>)
    ensures |ws| == |conns|
    ensures forall i :: 0 <= i < |conns| ==> ws[i] == Frame(conns[i], "dying")
  {
    if |conns| == 0 then [] else [Frame(conns[0], "dying")] + DyingWrites(conns[1..])
  }

  /** One round of the dispatcher: it waits, or writes and takes the queues, or says `dying` and kills the helper. */
  datatype Round = Waits | Wrote(after: Bridge, writes: seq<string>, killed: bool)

  /**
   * One dispatcher round: it sleeps until the bridge is dying or has someone
   * to greet or something to broadcast, then takes both queues. Dying, it
   * tells every connection and kills the helper; otherwise it greets, then
   * relays every broadcast in order.
   */
  function Dispatch(b: Bridge, commit: string): (r: Round)
    requires Valid(b)
    ensures r.Waits? <==> !b.dying && |b.toGreet| == 0 && |b.broadcasts| == 0
    ensures r.Wrote? ==> Valid(r.after) && r.after == b.(toGreet := [], broadcasts := [])
    ensures r.Wrote? ==> (r.killed <==> b.dying)
    ensures r.Wrote? && b.dying ==> r.writes == DyingWrites(b.conns)
    ensures r.Wrote? && !b.dying ==>
              r.writes == GreetWrites(b.toGreet, commit) + BroadcastWrites(b.broadcasts, b.conns)
  {
    if !b.dying && |b.toGreet| == 0 && |b.broadcasts| == 0 then Waits
    else
      var after := b.(toGreet := [], broadcasts := []);
      if b.dying then Wrote(after, DyingWrites(b.conns), true)
      else Wrote(after, GreetWrites(b.toGreet, commit) + BroadcastWrites(b.broadcasts, b.conns), false)
  }

  /** Each broadcast is written once to every connection except its sender's own. */
  lemma {:induction false} RelayCount(e: (int, string), conns: seq<int>)
    requires IntSet(conns)
    ensures |Relay(e, conns)| == if e.0 in conns then |conns| - 1 else |conns|
  {
    if |conns| > 0 {
      assert IntSet(conns[1..]);
      if conns[0] == e.0 {
        assert e.0 !in conns[1..];
      } else {
        assert e.0 in conns <==> e.0 in conns[1..];
      }
      RelayCount(e, conns[1..]);
    }
  }

  /** No frame of a broadcast is addressed to the client that sent it. */
  lemma SenderNeverEchoed(e: (int, string), conns: seq<int>, w: string)
    requires '\n' !in Relayed(e) && w in Relay(e, conns)
    ensures ReadFrame(w).Some? && ReadFrame(w).value.0 != e.0 && ReadFrame(w).value.1 == Relayed(e)
  {
    var id :| id in conns && id != e.0 && w == Frame(id, Relayed(e));
    ReadFrameOfFrame(id, Relayed(e));
  }

  /** How the queue was batched into rounds does not change what is written. */
  lemma {:induction false} BroadcastWritesAppend(bs1: seq<(int, string)>, bs2: seq<(int, string)>, conns: seq<int>)
    ensures BroadcastWrites(bs1 + bs2, conns) == BroadcastWrites(bs1, conns) + BroadcastWrites(bs2, conns)
  {
    if |bs1| == 0 {
      assert bs1 + bs2 == bs2;
    } else {
      assert (bs1 + bs2)[0] == bs1[0];
      assert (bs1 + bs2)[1..] == bs1[1..] + bs2;
      BroadcastWritesAppend(bs1[1..], bs2, conns);
      var head := Relay(bs1[0], conns);
      var tail1 := BroadcastWrites(bs1[1..], conns);
      var tail2 := BroadcastWrites(bs2, conns);
      assert BroadcastWrites(bs1 + bs2, conns) == head + (tail1 + tail2);
      assert head + (tail1 + tail2) == (head + tail1) + tail2;
    }
  }

  /** An idle bridge greets a newly connected client with exactly its two lines. */
  lemma ConnectThenGreet(b: Bridge, id: nat, commit: string)
    requires Valid(b) && !b.dying && b.toGreet == [] && b.broadcasts == []
    ensures var r := Dispatch(Handle(b, "+" + IntToString(id)), commit);
            r.Wrote? && r.writes == Greeting(id, commit) && !r.killed
  {
    ParseConnectLines(id);
    var b1 := Handle(b, "+" + IntToString(id));
    Ordered.IntLessIsStrictTotalOrder();
    Ordered.SortedSetsWithSameMembers(b1.toGreet, [id], Ordered.IntLess);
    assert GreetWrites([id], commit) == Greeting(id, commit) + GreetWrites([], commit);
  }

  /** Without the `msgreplier` library, an idle bridge relays a message to every other client and nothing more. */
  lemma MessageRelayed(b: Bridge, id: nat, text: string, commit: string)
    requires Valid(b) && !b.dying && b.toGreet == [] && b.broadcasts == [] && b.replier.None?
    requires CText.NoNul(text) && text != "stop"
    ensures var r := Dispatch(Handle(b, MessageLine(id, text)), commit);
            r.Wrote? && r.writes == Relay((id, text), b.conns) && !r.killed
  {
    ParseMessageLine(id, text);
    var b1 := Handle(b, MessageLine(id, text));
    assert b1.broadcasts == [] + [(id, text)] == [(id, text)];
    assert BroadcastWrites([(id, text)], b.conns) == Relay((id, text), b.conns) + BroadcastWrites([], b.conns);
  }

  /** `stop` from a client queues `stopping` from the server and raises the stop flag, whatever else is pending. */
  lemma StopLine(b: Bridge, id: nat)
    requires Valid(b)
    ensures Handle(b, MessageLine(id, "stop")) == b.(broadcasts := b.broadcasts + [(0, "stopping")], stop := true)
  {
    assert CText.NoNul("stop");
    ParseMessageLine(id, "stop");
    assert Handle(b, MessageLine(id, "stop")) == Apply(b, Message(id, "stop"));
  }

  /** As written, `stop` from a client whose index has one digit is seen, as in `StopLine`. */
  lemma StopLineAsWritten(b: Bridge, id: nat, junk: int)
    requires Valid(b) && id < 10
    ensures HandleAsWritten(b, MessageLine(id, "stop"), junk)
         == Some(b.(broadcasts := b.broadcasts + [(0, "stopping")], stop := true))
  {
    assert CText.NoNul("stop");
    AsWrittenOneDigit(id, "stop", junk);
    StopLine(b, id);
  }

  /**
   * A line that starts with no number (the helper prints one when a message
   * holds a newline) is dropped by the intended reading, while as written it
   * is relayed from the uninitialised sender with its first character cut.
   */
  lemma UnnumberedLineAsWritten(b: Bridge, line: string, junk: int)
    requires Valid(b) && b.replier.None?
    requires |line| > 0 && CText.NoNul(line) && line[1..] != "stop"
    requires !IsSpace(line[0]) && !IsDigit(line[0]) && line[0] != '+' && line[0] != '-'
    ensures Handle(b, line) == b
    ensures HandleAsWritten(b, line, junk) == Some(b.(broadcasts := b.broadcasts + [(junk, line[1..])]))
  {
    CText.CStrOfNoNul(line);
    assert SkipSpaces(line, 0) == 0;
    assert DigitRunEnd(line, 0) == 0;
    assert ScanInt(line, 0) == NoMatch;
  }

  /** Once dying, the next round tells each connection `dying`, in order, and kills the helper. */
  lemma DyingRound(b: Bridge, commit: string)
    requires Valid(b) && b.dying
    ensures var r := Dispatch(b, commit);
            && r.Wrote? && r.killed && |r.writes| == |b.conns|
            && forall i :: 0 <= i < |b.conns| ==> ReadFrame(r.writes[i]) == Some((b.conns[i], "dying"))
  {
    forall i | 0 <= i < |b.conns| ensures ReadFrame(DyingWrites(b.conns)[i]) == Some((b.conns[i], "dying")) {
      ReadFrameOfFrame(b.conns[i], "dying");
    }
  }
}
