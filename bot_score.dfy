/** The browser side of registration (auth.js): interaction counters kept
    while the form is open, a bot score computed from them, a math captcha,
    a honeypot field, and the decision whether to send the request. The
    clock and `Math.random` are parameters. */
module BotScore {
  import opened Common
  import opened Text
  import JwtAuth

  /** Score points for the time spent on the form, in milliseconds. */
  function TimePenalty(timeTaken: int): (p: nat)
    ensures p == 50 <==> timeTaken < 5000
    ensures p == 20 <==> 5000 <= timeTaken < 10000
    ensures p == 0 <==> timeTaken >= 10000
  {
    if timeTaken < 5000 then 50 else if timeTaken < 10000 then 20 else 0
  }

  /** More time on the form never costs more points. */
  lemma TimePenaltyAntitone(t: int, t': int)
    requires t <= t'
    ensures TimePenalty(t') <= TimePenalty(t)
  {
  }

  /** Score points for mouse movements. */
  function MousePenalty(moves: int): (p: nat)
    ensures p == 30 <==> moves < 5
    ensures p == 10 <==> 5 <= moves < 20
    ensures p == 0 <==> moves >= 20
  {
    if moves < 5 then 30 else if moves < 20 then 10 else 0
  }

  /** More mouse movement never costs more points. */
  lemma MousePenaltyAntitone(m: int, m': int)
    requires m <= m'
    ensures MousePenalty(m') <= MousePenalty(m)
  {
  }

  /** calculateBotScore: the sum of the time and mouse penalties, 20 for
      fewer than 10 keystrokes, 20 for fewer than 2 focus changes, and 15
      for fewer than 3 distinct fields typed into. */
  function Score(timeTaken: int, moves: int, keys: int, focus: int, fields: nat): (s: nat)
    ensures s <= 135
    ensures s == 0 <==> timeTaken >= 10000 && moves >= 20 && keys >= 10 && focus >= 2 && fields >= 3
    ensures timeTaken < 5000 ==> s >= 50
    ensures moves < 5 && keys < 10 ==> s >= 50
  {
    TimePenalty(timeTaken) + MousePenalty(moves)
      + (if keys < 10 then 20 else 0)
      + (if focus < 2 then 20 else 0)
      + (if fields < 3 then 15 else 0)
  }

  /** More time, movement, typing, focus or fields never raise the score. */
  lemma ScoreAntitone(t: int, m: int, k: int, f: int, n: nat, t': int, m': int, k': int, f': int, n': nat)
    requires t <= t' && m <= m' && k <= k' && f <= f' && n <= n'
    ensures Score(t', m', k', f', n') <= Score(t, m, k, f, n)
  {
    TimePenaltyAntitone(t, t');
    MousePenaltyAntitone(m, m');
  }

  /** What submitting the form leads to. */
  datatype Submission =
    | HoneypotTripped        // the hidden field was filled: nothing is sent
    | WrongCaptcha           // a new question is drawn
    | TooSuspicious          // score above 60: new question, counters reset
    | Sent(username: string, email: string, password: string, report: JwtAuth.Behavior)

  /** The report the form sends: every field present. */
  function Report(timeTaken: int, moves: int, keys: int, focus: int, score: int): JwtAuth.Behavior {
    JwtAuth.Behavior(Some(timeTaken), Some(moves), Some(keys), Some(focus), Some(score))
  }

  /** The state auth.js keeps while the registration form is open. */
  class RegisterForm {
    var mathAnswer: int
    var mouseMovements: int
    var keystrokes: int
    var focusChanges: int
    var startTime: int
    var fieldsFilled: set<string>

    ghost predicate Valid()
      reads this
    {
      mouseMovements >= 0 && keystrokes >= 0 && focusChanges >= 0
    }

    /** The state when the page loads. */
    constructor ()
      ensures Valid()
      ensures mathAnswer == 0 && mouseMovements == 0 && keystrokes == 0 && focusChanges == 0
      ensures startTime == 0 && fieldsFilled == {}
    {
      mathAnswer := 0;
      mouseMovements := 0;
      keystrokes := 0;
      focusChanges := 0;
      startTime := 0;
      fieldsFilled := {};
    }

    /** generateMathCaptcha: the question is `n1 + n2` with both drawn
        from 1 to 10. */
    method GenerateCaptcha(n1: int, n2: int)
      requires 1 <= n1 <= 10 && 1 <= n2 <= 10
      modifies this`mathAnswer
      ensures mathAnswer == n1 + n2 && 2 <= mathAnswer <= 20
    {
      mathAnswer := n1 + n2;
    }

    /** initBehaviorTracking: the clock starts; the counters are left as
        they are. */
    method StartTracking(now: int)
      modifies this`startTime
      ensures startTime == now
    {
      startTime := now;
    }

    method MouseMove()
      requires Valid()
      modifies this`mouseMovements
      ensures Valid() && mouseMovements == old(mouseMovements) + 1
    {
      mouseMovements := mouseMovements + 1;
    }

    method KeyDown()
      requires Valid()
      modifies this`keystrokes
      ensures Valid() && keystrokes == old(keystrokes) + 1
    {
      keystrokes := keystrokes + 1;
    }

    method Focus()
      requires Valid()
      modifies this`focusChanges
      ensures Valid() && focusChanges == old(focusChanges) + 1
    {
      focusChanges := focusChanges + 1;
    }

    /** An `input` event on the field with id `field`: typing into a field
        already counted does not count again. */
    method Input(field: string)
      modifies this`fieldsFilled
      ensures fieldsFilled == old(fieldsFilled) + {field}
      ensures field in old(fieldsFilled) ==> |fieldsFilled| == |old(fieldsFilled)|
      ensures field !in old(fieldsFilled) ==> |fieldsFilled| == |old(fieldsFilled)| + 1
    {
      if field in fieldsFilled {
        assert fieldsFilled + {field} == fieldsFilled;
      }
      fieldsFilled := fieldsFilled + {field};
    }

    /** calculateBotScore at time `now`. */
    function CurrentScore(now: int): (s: nat)
      reads this
      ensures s <= 135
      ensures s == Score(now - startTime, mouseMovements, keystrokes, focusChanges, |fieldsFilled|)
    {
      Score(now - startTime, mouseMovements, keystrokes, focusChanges, |fieldsFilled|)
    }

    /** The submit handler. The honeypot is checked first, then the
        captcha (the answer field read with parseInt), then the score taken
        at `scoredAt`; the report's time is read again at `sentAt`. A wrong
        captcha or a suspicious score draws the new question `n1 + n2`. */
    method Submit(username: string, email: string, password: string, honeypot: string, captcha: string,
                  scoredAt: int, sentAt: int, n1: int, n2: int) returns (o: Submission)
      requires Valid()
      requires 1 <= n1 <= 10 && 1 <= n2 <= 10
      requires scoredAt <= sentAt
      modifies this
      ensures Valid()
      ensures o == HoneypotTripped <==> honeypot != ""
      ensures o == WrongCaptcha <==> honeypot == "" && ParseInt(captcha) != Some(old(mathAnswer))
      ensures o.Sent? <==>
        honeypot == "" && ParseInt(captcha) == Some(old(mathAnswer)) && old(CurrentScore(scoredAt)) <= 60
      ensures o == HoneypotTripped ==>
        mathAnswer == old(mathAnswer) && mouseMovements == old(mouseMovements) && keystrokes == old(keystrokes)
        && focusChanges == old(focusChanges) && startTime == old(startTime) && fieldsFilled == old(fieldsFilled)
      ensures o == WrongCaptcha ==>
        mathAnswer == n1 + n2 && mouseMovements == old(mouseMovements) && keystrokes == old(keystrokes)
        && focusChanges == old(focusChanges) && startTime == old(startTime) && fieldsFilled == old(fieldsFilled)
      ensures honeypot == "" && ParseInt(captcha) == Some(old(mathAnswer)) ==>
        (o == TooSuspicious <==> old(CurrentScore(scoredAt)) > 60)
      ensures o == TooSuspicious ==>
        mathAnswer == n1 + n2 && mouseMovements == 0 && keystrokes == 0 && focusChanges == 0
        && startTime == scoredAt && fieldsFilled == {}
      ensures o.Sent? ==>
        && honeypot == "" && ParseInt(captcha) == Some(old(mathAnswer))
        && old(CurrentScore(scoredAt)) <= 60
        && o == Sent(username, email, password,
                     Report(sentAt - old(startTime), old(mouseMovements), old(keystrokes), old(focusChanges), old(CurrentScore(scoredAt))))
        && mathAnswer == old(mathAnswer) && mouseMovements == old(mouseMovements) && keystrokes == old(keystrokes)
        && focusChanges == old(focusChanges) && startTime == old(startTime) && fieldsFilled == old(fieldsFilled)
    {
      if honeypot != "" {
        return HoneypotTripped;
      }
      if ParseInt(captcha) != Some(mathAnswer) {
        GenerateCaptcha(n1, n2);
        return WrongCaptcha;
      }
      var score := CurrentScore(scoredAt);
      if score > 60 {
        GenerateCaptcha(n1, n2);
        mouseMovements := 0;
        keystrokes := 0;
        focusChanges := 0;
        startTime := scoredAt;
        fieldsFilled := {};
        return TooSuspicious;
      }
      o := Sent(username, email, password, Report(sentAt - startTime, mouseMovements, keystrokes, focusChanges, score));
    }
  }

  /** The server never calls a report the form sent suspicious: the form
      only sends scores of 60 or less. */
  lemma SentReportsAreNotSuspicious(t: int, m: int, k: int, f: int, n: nat, sentTime: int)
    requires Score(t, m, k, f, n) <= 60
    ensures JwtAuth.BehaviorError(Report(sentTime, m, k, f, Score(t, m, k, f, n))) != Some(Suspicious)
  {
  }

  /** The two layers disagree: a form filled in under five seconds by a
      user who moved the mouse, typed and tabbed through every field scores
      50, so the browser sends it, and the server refuses it as too fast. */
  lemma FastHumanPassesBrowserOnly()
    ensures Score(4000, 20, 10, 2, 3) == 50
    ensures JwtAuth.BehaviorError(Report(4000, 20, 10, 2, 50)) == Some(TooFast)
  {
  }

  /** Likewise a form with almost no mouse or keyboard activity that took
      long enough scores 50 and is sent, and the server refuses it. */
  lemma IdleHumanPassesBrowserOnly()
    ensures Score(10000, 0, 0, 2, 3) == 50
    ensures JwtAuth.BehaviorError(Report(10000, 0, 0, 2, 50)) == Some(UnusualBehavior)
  {
  }

  /** Whenever the server refuses a report the form sent, it was for one of
      its own two extra checks, and the report's score was at least 50. */
  lemma ServerOnlyRefusesForItsOwnChecks(t: int, m: int, k: int, f: int, n: nat, sentTime: int)
    requires Score(t, m, k, f, n) <= 60 && t <= sentTime
    requires JwtAuth.BehaviorError(Report(sentTime, m, k, f, Score(t, m, k, f, n))).Some?
    ensures JwtAuth.BehaviorError(Report(sentTime, m, k, f, Score(t, m, k, f, n))) in {Some(TooFast), Some(UnusualBehavior)}
    ensures Score(t, m, k, f, n) >= 50
  {
  }
}
