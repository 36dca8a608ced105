/**
 * The `msgreplier` extension library (`dlib_ext_msgreplier.cc`): on every
 * broadcast it greets once, answers `a+b` with the sum (plus the stored
 * `C` when that is non-zero) and stores `C` from `c=N`. The two global
 * variables are the replier's state; `sscanf` is `Decimal.ScanInt`.
 */
module MsgReplier {
  import opened Wrappers
  import opened Decimal

  /** `welcome_sent` and `c`. */
  datatype Replier = Replier(welcomeSent: bool, c: int)

  const Initial: Replier := Replier(false, 0)

  const Welcome: seq<string> := [
    "welcome to the `msgreplier` dlib!",
    "try `2+2` or `c=100` to seem me in action",
    "if you change `dlib_ext_msgreplier.cc` and `make`, i will re-load for the next msg"
  ]

  const ResetReply: string := "the value of C is reset"
  const SetReply: string := "set C to a new value, try 2+2 again"

  /** `sscanf(msg, "%d+%d", &a, &b) == 2`: a number, a `+` right after it, a number. */
  function ScanSum(msg: string): (r: Option<(int, int)>)
    ensures r.Some? ==> ScanInt(msg, 0).Converted? && ScanInt(msg, 0).value == r.value.0
  {
    match ScanInt(msg, 0)
    case Converted(a, e) =>
      if e < |msg| && msg[e] == '+' then
        match ScanInt(msg, e + 1)
        case Converted(b, _) => Some((a, b))
        case _ => None
      else None
    case _ => None
  }

  /** `sscanf(msg, "c=%d", &c_value) == 1`: the characters `c=` and then a number. */
  function ScanSet(msg: string): (r: Option<int>)
    ensures r.Some? ==> |msg| >= 2 && msg[..2] == "c="
  {
    if |msg| >= 2 && msg[0] == 'c' && msg[1] == '=' then
      match ScanInt(msg, 2)
      case Converted(v, _) => Some(v)
      case _ => None
    else None
  }

  /** A `%d+%d` message never also reads as `c=%d`: it starts with a number, not with `c`. */
  lemma SumIsNotSet(msg: string)
    requires ScanSum(msg).Some?
    ensures ScanSet(msg).None?
  {
  }

  /** A value of the source's 32-bit `int`. */
  predicate IsInt32(x: int) {
    -0x8000_0000 <= x < 0x8000_0000
  }

  /** The sum is printed only where the source's `int` arithmetic does not overflow. */
  predicate SumFits(a: int, b: int, c: int) {
    IsInt32(a) && IsInt32(b) && IsInt32(c) && IsInt32(a + b) && IsInt32(a + b + c)
  }

  function SumReply(a: int, b: int, c: int): string {
    if c == 0 then IntToString(a) + "+" + IntToString(b) + "=" + IntToString(a + b)
    else IntToString(a) + "+" + IntToString(b) + "+C=" + IntToString(a + b + c)
  }

  /**
   * `OnBroadcast`: nothing at all unless the host object implements
   * `IMsgReplier`; otherwise the welcome (first time only), then the
   * answer to a sum or a `c=N`, or no answer.
   */
  function OnBroadcast(st: Replier, isReplier: bool, msg: string): (r: (Replier, seq<string>))
    ensures !isReplier ==> r == (st, [])
    ensures isReplier ==> r.0.welcomeSent
    ensures isReplier ==> (if st.welcomeSent then [] else Welcome) <= r.1
    ensures isReplier && ScanSum(msg).None? && ScanSet(msg).None? ==>
              r == (st.(welcomeSent := true), if st.welcomeSent then [] else Welcome)
    ensures r.0.c != st.c ==> isReplier && ScanSum(msg).None? && ScanSet(msg) == Some(r.0.c)
  {
    if !isReplier then (st, [])
    else
      var greeting := if st.welcomeSent then [] else Welcome;
      var st1 := st.(welcomeSent := true);
      match ScanSum(msg)
      case Some((a, b)) => (st1, greeting + [SumReply(a, b, st.c)])
      case None =>
        match ScanSet(msg)
        case Some(v) => (st1.(c := v), greeting + [if v == 0 then ResetReply else SetReply])
        case None => (st1, greeting)
  }

  /** Messages broadcast one after another, with every reply in order. */
  function Session(st: Replier, msgs: seq<string>): (r: (Replier, seq<string>))
    decreases |msgs|
  {
    if |msgs| == 0 then (st, [])
    else
      var (st1, out1) := OnBroadcast(st, true, msgs[0]);
      var (st2, out2) := Session(st1, msgs[1..]);
      (st2, out1 + out2)
  }

  /** Once greeted, a session never greets again. */
  lemma {:induction false} NoSecondWelcome(st: Replier, msgs: seq<string>)
    requires st.welcomeSent
    ensures Session(st, msgs).0.welcomeSent
    ensures |Session(st, msgs).1| <= |msgs|
    decreases |msgs|
  {
    if |msgs| > 0 {
      NoSecondWelcome(OnBroadcast(st, true, msgs[0]).0, msgs[1..]);
    }
  }

  /** A session from the start greets exactly once, first, and then answers at most once per message. */
  lemma WelcomeOnce(msgs: seq<string>)
    requires |msgs| > 0
    ensures var out := Session(Initial, msgs).1;
            Welcome <= out && |out| <= |Welcome| + |msgs|
  {
    var (st1, out1) := OnBroadcast(Initial, true, msgs[0]);
    NoSecondWelcome(st1, msgs[1..]);
    assert |out1| <= |Welcome| + 1;
  }

  /** Reading back `a+b` as printed recovers both numbers. */
  lemma ScanSumOfPrinted(a: int, b: int)
    ensures ScanSum(IntToString(a) + "+" + IntToString(b)) == Some((a, b))
  {
    var msg := IntToString(a) + "+" + IntToString(b);
    ScanIntToString("", a, "+" + IntToString(b));
    assert "" + IntToString(a) + ("+" + IntToString(b)) == msg;
    ScanIntToString(IntToString(a) + "+", b, "");
    assert IntToString(a) + "+" + IntToString(b) + "" == msg;
  }

  /** Reading back `c=N` as printed recovers `N`. */
  lemma ScanSetOfPrinted(n: int)
    ensures ScanSet("c=" + IntToString(n)) == Some(n)
  {
    ScanIntToString("c=", n, "");
    assert "c=" + IntToString(n) + "" == "c=" + IntToString(n);
  }

  /** `a+b` is answered with the sum, plus `C` when it is set; `C` itself is unchanged. */
  lemma AnswersSum(st: Replier, a: int, b: int)
    requires SumFits(a, b, st.c)
    ensures var r := OnBroadcast(st, true, IntToString(a) + "+" + IntToString(b));
            && r.0 == st.(welcomeSent := true)
            && r.1 == (if st.welcomeSent then [] else Welcome) + [SumReply(a, b, st.c)]
  {
    ScanSumOfPrinted(a, b);
  }

  /** `c=N` stores `N` and says whether it was a reset. */
  lemma StoresC(st: Replier, n: int)
    requires IsInt32(n)
    ensures var r := OnBroadcast(st, true, "c=" + IntToString(n));
            && r.0 == Replier(true, n)
            && r.1 == (if st.welcomeSent then [] else Welcome) + [if n == 0 then ResetReply else SetReply]
  {
    ScanSetOfPrinted(n);
    assert ScanSum("c=" + IntToString(n)).None? by {
      assert ScanInt("c=" + IntToString(n), 0).NoMatch?;
    }
  }

  /** After `c=N`, a sum is answered with `N` added in, in the `+C=` form unless `N` is zero. */
  lemma SetThenSum(st: Replier, n: int, a: int, b: int)
    requires SumFits(a, b, n)
    ensures var (st1, _) := OnBroadcast(st, true, "c=" + IntToString(n));
            var (_, out) := OnBroadcast(st1, true, IntToString(a) + "+" + IntToString(b));
            && out == [SumReply(a, b, n)]
            && (n != 0 ==> out == [IntToString(a) + "+" + IntToString(b) + "+C=" + IntToString(a + b + n)])
  {
    StoresC(st, n);
    AnswersSum(OnBroadcast(st, true, "c=" + IntToString(n)).0, a, b);
  }
}
