/**
 * Bulk creation of private Slack channels from an assignment table
 * (slack/create_channel.py). Each row names a channel and its members; the
 * script creates the channel, invites the members and has the bot leave,
 * and records one outcome per row in five parallel lists, whatever happened.
 * The three Slack calls are not modelled: what each of them answered for a
 * row is given as data (Replies), and the outcome is computed from it.
 */
module ChannelProvisioning {
  import MemberList
  import Paths

  datatype Option<T> = None | Some(value: T)

  // ---------------------------------------------------------------------------
  // Inputs: assignment rows and what the Slack calls answered for them
  // ---------------------------------------------------------------------------

  /** One row of the assignment CSV: `Channel_Name` and the raw `Members` cell. */
  datatype Row = Row(channelName: string, membersCell: string)

  /** How a Slack call failed: a `SlackApiError` carrying the API's error code, or any other exception. */
  datatype Failure = SlackApiError(code: string) | OtherException(text: string)

  /** The answer to `conversations_create`: the new channel's id, or a failure. */
  datatype CreateReply = Created(channelId: string) | CreateFailed(failure: Failure)

  /** The answer to `conversations_invite` or `conversations_leave`. */
  datatype StepReply = Done | StepFailed(failure: Failure)

  /** The answers the three calls would give for one row, in the order they are made. */
  datatype Replies = Replies(create: CreateReply, invite: StepReply, leave: StepReply)

  /** One row together with the answers its calls receive. */
  datatype Attempt = Attempt(row: Row, replies: Replies)

  /** All three calls succeeded. */
  predicate AllSucceeded(r: Replies)
  {
    r.create.Created? && r.invite.Done? && r.leave.Done?
  }

  // ---------------------------------------------------------------------------
  // The outcome of one row: lines 102-131
  // ---------------------------------------------------------------------------

  const API_ERROR_PREFIX: string := "Slack API Error: "
  const UNEXPECTED_PREFIX: string := "Unexpected error: "

  predicate StartsWith(s: string, prefix: string)
  {
    |prefix| <= |s| && s[..|prefix|] == prefix
  }

  /** The text recorded in `Error` for a failure (lines 127 and 130). */
  function ErrorMessage(f: Failure): (m: string)
    ensures f.SlackApiError? <==> StartsWith(m, API_ERROR_PREFIX)
    ensures f.OtherException? <==> StartsWith(m, UNEXPECTED_PREFIX)
  {
    match f
    case SlackApiError(code) =>
      assert (API_ERROR_PREFIX + code)[0] == 'S' != UNEXPECTED_PREFIX[0];
      API_ERROR_PREFIX + code
    case OtherException(text) =>
      assert (UNEXPECTED_PREFIX + text)[0] == 'U' != API_ERROR_PREFIX[0];
      UNEXPECTED_PREFIX + text
  }

  /** The recorded message identifies the failure: different failures give different messages. */
  lemma ErrorMessageInjective(f: Failure, g: Failure)
    requires ErrorMessage(f) == ErrorMessage(g)
    ensures f == g
  {
    var m := ErrorMessage(f);
    match f
    case SlackApiError(code) =>
      assert g.SlackApiError?;
      assert code == m[|API_ERROR_PREFIX|..] == g.code;
    case OtherException(text) =>
      assert g.OtherException?;
      assert text == m[|UNEXPECTED_PREFIX|..] == g.text;
  }

  /** The exception that ends the try block: that of the first call to fail; later calls are not made. */
  function FirstFailure(r: Replies): (o: Option<Failure>)
    ensures o == None <==> AllSucceeded(r)
    ensures r.create.CreateFailed? ==> o == Some(r.create.failure)
    ensures r.create.Created? && r.invite.StepFailed? ==> o == Some(r.invite.failure)
    ensures r.create.Created? && r.invite.Done? && r.leave.StepFailed? ==> o == Some(r.leave.failure)
  {
    match r.create
    case CreateFailed(f) => Some(f)
    case Created(_) =>
      match r.invite
      case StepFailed(f) => Some(f)
      case Done =>
        match r.leave
        case StepFailed(f) => Some(f)
        case Done => None
  }

  /** The five values the script logs for a row. */
  datatype Outcome = Outcome(
    channelId: Option<string>,
    channelName: string,
    members: seq<string>,
    success: bool,
    error: Option<string>)

  function ErrorOf(failure: Option<Failure>): Option<string>
  {
    match failure
    case None => None
    case Some(f) => Some(ErrorMessage(f))
  }

  /** What the script records for one row, given the answers of its calls. */
  function RowOutcome(a: Attempt): (o: Outcome)
    ensures o.channelName == a.row.channelName
    ensures o.members == MemberList.Members(a.row.membersCell)
    ensures o.success <==> AllSucceeded(a.replies)
    ensures o.success ==> o.error == None
    ensures !o.success ==> o.error.Some? && |o.error.value| > 0
    ensures !o.success ==>
              StartsWith(o.error.value, API_ERROR_PREFIX) || StartsWith(o.error.value, UNEXPECTED_PREFIX)
    ensures o.channelId == None <==> a.replies.create.CreateFailed?
    ensures a.replies.create.Created? ==> o.channelId == Some(a.replies.create.channelId)
  {
    var failure := FirstFailure(a.replies);
    Outcome(
      if a.replies.create.Created? then Some(a.replies.create.channelId) else None,
      a.row.channelName,
      MemberList.Members(a.row.membersCell),
      failure == None,
      ErrorOf(failure))
  }

  /** When creation fails, the invite and leave answers do not matter: those calls are never made. */
  lemma CreateFailureStopsRow(row: Row, f: Failure, i1: StepReply, l1: StepReply, i2: StepReply, l2: StepReply)
    ensures RowOutcome(Attempt(row, Replies(CreateFailed(f), i1, l1)))
         == RowOutcome(Attempt(row, Replies(CreateFailed(f), i2, l2)))
    ensures RowOutcome(Attempt(row, Replies(CreateFailed(f), i1, l1))).error == Some(ErrorMessage(f))
  {
  }

  /**
   * When the invite fails after the channel was created, the leave answer does
   * not matter, the row fails with the invite's error, and the created
   * channel's id is still recorded: creation is not rolled back.
   */
  lemma InviteFailureKeepsChannel(row: Row, id: string, f: Failure, l1: StepReply, l2: StepReply)
    ensures var o := RowOutcome(Attempt(row, Replies(Created(id), StepFailed(f), l1)));
            && o == RowOutcome(Attempt(row, Replies(Created(id), StepFailed(f), l2)))
            && !o.success && o.error == Some(ErrorMessage(f)) && o.channelId == Some(id)
  {
  }

  /** When only the leave fails, the row fails with the leave's error and keeps the channel id. */
  lemma LeaveFailureKeepsChannel(row: Row, id: string, f: Failure)
    ensures var o := RowOutcome(Attempt(row, Replies(Created(id), Done, StepFailed(f))));
            !o.success && o.error == Some(ErrorMessage(f)) && o.channelId == Some(id)
  {
  }

  /**
   * Lines 102-131: the locals `success`, `error_msg` and `channel_id`, set as
   * the calls of the try block succeed, or by the handler of the exception
   * that ends it.
   */
  method ProcessRow(row: Row, replies: Replies) returns (channelId: Option<string>, success: bool, errorMsg: Option<string>)
    ensures var o := RowOutcome(Attempt(row, replies));
            channelId == o.channelId && success == o.success && errorMsg == o.error
  {
    success := false;
    errorMsg := None;
    channelId := None;
    var raised: Option<Failure> := None;
    match replies.create {
      case CreateFailed(f) =>
        raised := Some(f);
      case Created(id) =>
        channelId := Some(id);
        match replies.invite {
          case StepFailed(f) =>
            raised := Some(f);
          case Done =>
            match replies.leave {
              case StepFailed(f) =>
                raised := Some(f);
              case Done =>
                success := true;
            }
        }
    }
    if raised.Some? {
      errorMsg := Some(ErrorMessage(raised.value));
    }
  }

  // ---------------------------------------------------------------------------
  // The log: five parallel lists (lines 89-95, 133-138)
  // ---------------------------------------------------------------------------

  /** `log_data`: one list per output column, appended to once per row. */
  class LogData {
    var channelIds: seq<Option<string>>
    var channelNames: seq<string>
    var members: seq<seq<string>>
    var successes: seq<bool>
    var errors: seq<Option<string>>

    /** The five lists always have the same length. */
    ghost predicate Valid()
      reads this
    {
      && |channelNames| == |channelIds|
      && |members| == |channelIds|
      && |successes| == |channelIds|
      && |errors| == |channelIds|
    }

    /** The number of rows logged so far. */
    function Rows(): nat
      reads this
    {
      |channelIds|
    }

    /** The k-th logged row, read across the five lists. */
    function Entry(k: nat): Outcome
      reads this
      requires Valid() && k < Rows()
    {
      Outcome(channelIds[k], channelNames[k], members[k], successes[k], errors[k])
    }

    constructor ()
      ensures Valid() && Rows() == 0
      ensures channelIds == [] && channelNames == [] && members == [] && successes == [] && errors == []
    {
      channelIds, channelNames, members, successes, errors := [], [], [], [], [];
    }

    /** Lines 134-138: append one value to each of the five lists. */
    method Record(channelId: Option<string>, channelName: string, rowMembers: seq<string>, success: bool, error: Option<string>)
      requires Valid()
      modifies this
      ensures Valid() && Rows() == old(Rows()) + 1
      ensures channelIds == old(channelIds) + [channelId]
      ensures channelNames == old(channelNames) + [channelName]
      ensures members == old(members) + [rowMembers]
      ensures successes == old(successes) + [success]
      ensures errors == old(errors) + [error]
    {
      channelIds := channelIds + [channelId];
      channelNames := channelNames + [channelName];
      members := members + [rowMembers];
      successes := successes + [success];
      errors := errors + [error];
    }
  }

  /**
   * The `Success` column for a run over `attempts`: one entry per row, and as
   * many true entries as there are rows whose three calls all succeeded.
   */
  function SuccessColumn(attempts: seq<Attempt>): (r: seq<bool>)
    ensures |r| == |attempts|
    ensures forall k :: 0 <= k < |attempts| ==> r[k] == RowOutcome(attempts[k]).success
    ensures CountTrue(r) == CountAllSucceeded(attempts)
  {
    var r := seq(|attempts|, k requires 0 <= k < |attempts| => RowOutcome(attempts[k]).success);
    CountSuccesses(attempts, r);
    r
  }

  lemma {:induction false} CountSuccesses(attempts: seq<Attempt>, r: seq<bool>)
    requires |r| == |attempts|
    requires forall k :: 0 <= k < |attempts| ==> r[k] == RowOutcome(attempts[k]).success
    ensures CountTrue(r) == CountAllSucceeded(attempts)
    decreases |attempts|
  {
    if attempts != [] {
      assert forall k :: 0 <= k < |attempts| - 1 ==> r[1..][k] == r[k + 1];
      CountSuccesses(attempts[1..], r[1..]);
    }
  }

  /**
   * Lines 89-138: every row is visited, whatever happened to the rows before
   * it, and contributes exactly one entry to each list.
   */
  method ProvisionChannels(attempts: seq<Attempt>) returns (log: LogData)
    ensures fresh(log) && log.Valid()
    ensures log.Rows() == |attempts|
    ensures forall k :: 0 <= k < |attempts| ==> log.Entry(k) == RowOutcome(attempts[k])
    ensures log.successes == SuccessColumn(attempts)
  {
    log := new LogData();
    for i := 0 to |attempts|
      invariant log.Valid() && log.Rows() == i
      invariant forall k :: 0 <= k < i ==> log.Entry(k) == RowOutcome(attempts[k])
    {
      var row := attempts[i].row;
      var channelName := row.channelName;
      var members := MemberList.Members(row.membersCell);
      var channelId, success, errorMsg := ProcessRow(row, attempts[i].replies);
      log.Record(channelId, channelName, members, success, errorMsg);
      assert log.Entry(i) == RowOutcome(attempts[i]);
    }
    assert forall k :: 0 <= k < |attempts| ==> log.successes[k] == log.Entry(k).success;
  }

  // ---------------------------------------------------------------------------
  // Summary: lines 150-152
  // ---------------------------------------------------------------------------

  /** `sum(flags)` for a list of booleans. */
  function CountTrue(flags: seq<bool>): (n: nat)
    ensures n <= |flags|
    ensures n == |flags| <==> forall i :: 0 <= i < |flags| ==> flags[i]
    ensures n == 0 <==> forall i :: 0 <= i < |flags| ==> !flags[i]
  {
    if flags == [] then 0
    else
      assert forall i :: 0 <= i < |flags| - 1 ==> flags[1..][i] == flags[i + 1];
      (if flags[0] then 1 else 0) + CountTrue(flags[1..])
  }

  function CountFalse(flags: seq<bool>): nat
  {
    if flags == [] then 0 else (if flags[0] then 0 else 1) + CountFalse(flags[1..])
  }

  datatype Summary = Summary(total: nat, successful: nat, failed: int)

  /** The three numbers printed at the end of a run. */
  function Summarize(successColumn: seq<bool>): (s: Summary)
    ensures s.total == |successColumn|
    ensures s.successful <= s.total
    ensures s.failed == s.total - s.successful
    ensures s.failed == CountFalse(successColumn)
  {
    CountsAddUp(successColumn);
    var total := |successColumn|;
    var successful := CountTrue(successColumn);
    Summary(total, successful, total - successful)
  }

  lemma {:induction false} CountsAddUp(flags: seq<bool>)
    ensures CountTrue(flags) + CountFalse(flags) == |flags|
    decreases |flags|
  {
    if flags != [] {
      CountsAddUp(flags[1..]);
    }
  }

  /** The number of rows whose three calls all succeeded. */
  function CountAllSucceeded(attempts: seq<Attempt>): nat
  {
    if attempts == [] then 0
    else (if AllSucceeded(attempts[0].replies) then 1 else 0) + CountAllSucceeded(attempts[1..])
  }

  /**
   * The summary of a run counts every row once, and counts as successful
   * exactly the rows whose create, invite and leave calls all succeeded.
   */
  lemma {:induction false} SummaryOfRun(attempts: seq<Attempt>)
    ensures var s := Summarize(SuccessColumn(attempts));
            && s.total == |attempts|
            && s.successful == CountAllSucceeded(attempts)
            && s.failed == |attempts| - CountAllSucceeded(attempts)
    decreases |attempts|
  {
    if attempts != [] {
      SummaryOfRun(attempts[1..]);
      assert SuccessColumn(attempts)[1..] == SuccessColumn(attempts[1..]);
    }
  }

  // ---------------------------------------------------------------------------
  // The run's name: line 80
  // ---------------------------------------------------------------------------

  const CSV_EXTENSION: string := ".csv"

  predicate OccursAt(s: string, i: nat)
  {
    i + |CSV_EXTENSION| <= |s| && s[i..i + |CSV_EXTENSION|] == CSV_EXTENSION
  }

  predicate ContainsCsv(s: string)
  {
    exists i: nat :: i < |s| && OccursAt(s, i)
  }

  /** `s.replace('.csv', '')`: every occurrence of ".csv", found left to right without overlap, removed. */
  function RemoveCsv(s: string): (r: string)
    ensures |r| <= |s|
    decreases |s|
  {
    if OccursAt(s, 0) then RemoveCsv(s[|CSV_EXTENSION|..])
    else if s == [] then []
    else [s[0]] + RemoveCsv(s[1..])
  }

  /** `os.path.basename(csv_path.replace('.csv', ''))` */
  function CsvName(csvPath: string): (r: string)
    ensures Paths.SEPARATOR !in r
  {
    Paths.Basename(RemoveCsv(csvPath))
  }

  lemma DropFromFront(a: string, m: string, b: string, n: nat)
    requires n <= |a|
    ensures (a + m + b)[n..] == a[n..] + m + b
  {
    assert a + m + b == a[..n] + (a[n..] + m + b);
  }

  lemma TakeFromFront(a: string, m: string, b: string, n: nat)
    requires n <= |a|
    ensures (a + m + b)[..n] == a[..n]
  {
    assert a + m + b == a[..n] + (a[n..] + m + b);
  }

  /** A string without ".csv" is left as it is. */
  lemma {:induction false} RemoveCsvNoop(s: string)
    requires !ContainsCsv(s)
    ensures RemoveCsv(s) == s
    decreases |s|
  {
    if s != [] {
      assert !OccursAt(s, 0);
      assert !ContainsCsv(s[1..]) by {
        forall i: nat | i < |s[1..]| && OccursAt(s[1..], i)
          ensures false
        {
          assert s[1..][i..i + 4] == s[i + 1..i + 5];
          assert OccursAt(s, i + 1);
        }
      }
      RemoveCsvNoop(s[1..]);
      assert s == [s[0]] + s[1..];
    }
  }

  /**
   * An occurrence of ".csv" is removed, and what lies on either side of it is
   * treated as if on its own: ".csv" cannot overlap itself, so no match
   * straddles the boundaries.
   */
  lemma {:induction false} RemoveCsvAround(a: string, b: string)
    ensures RemoveCsv(a + CSV_EXTENSION + b) == RemoveCsv(a) + RemoveCsv(b)
    decreases |a|
  {
    var s := a + CSV_EXTENSION + b;
    if a == [] {
      assert s == CSV_EXTENSION + b;
      assert OccursAt(s, 0);
      assert s[4..] == b;
    } else if OccursAt(a, 0) {
      TakeFromFront(a, CSV_EXTENSION, b, 4);
      DropFromFront(a, CSV_EXTENSION, b, 4);
      RemoveCsvAround(a[4..], b);
    } else {
      assert !OccursAt(s, 0) by {
        if |a| >= 4 {
          TakeFromFront(a, CSV_EXTENSION, b, 4);
        } else {
          assert s[..4][|a|] == '.' != CSV_EXTENSION[|a|];
        }
      }
      DropFromFront(a, CSV_EXTENSION, b, 1);
      RemoveCsvAround(a[1..], b);
      assert [a[0]] + RemoveCsv(a[1..]) == RemoveCsv(a);
    }
  }

  /** A character that is not part of ".csv" splits the string in two halves treated on their own. */
  lemma {:induction false} RemoveCsvAroundChar(a: string, c: char, b: string)
    requires c !in CSV_EXTENSION
    ensures RemoveCsv(a + [c] + b) == RemoveCsv(a) + [c] + RemoveCsv(b)
    decreases |a|
  {
    var s := a + [c] + b;
    if a == [] {
      assert s == [c] + b && s[1..] == b;
      assert !OccursAt(s, 0) by { assert s[0] == c; }
    } else if OccursAt(a, 0) {
      TakeFromFront(a, [c], b, 4);
      DropFromFront(a, [c], b, 4);
      RemoveCsvAroundChar(a[4..], c, b);
    } else {
      assert !OccursAt(s, 0) by {
        if |a| >= 4 {
          TakeFromFront(a, [c], b, 4);
        } else {
          assert s[|a|] == c;
        }
      }
      DropFromFront(a, [c], b, 1);
      RemoveCsvAroundChar(a[1..], c, b);
    }
  }

  /**
   * For the usual argument, a directory and a file name ending in ".csv"
   * (with no other ".csv" and no separator in it), the run is named after the
   * file name without its extension.
   */
  lemma CsvNameOfPath(dir: string, stem: string)
    requires Paths.SEPARATOR !in stem && !ContainsCsv(stem)
    ensures CsvName(dir + [Paths.SEPARATOR] + stem + CSV_EXTENSION) == stem
  {
    var s := dir + [Paths.SEPARATOR] + stem;
    assert s + CSV_EXTENSION + [] == dir + [Paths.SEPARATOR] + stem + CSV_EXTENSION;
    RemoveCsvAround(s, []);
    assert RemoveCsv(s) + RemoveCsv([]) == RemoveCsv(s);
    RemoveCsvAroundChar(dir, Paths.SEPARATOR, stem);
    RemoveCsvNoop(stem);
    var d := RemoveCsv(dir) + [Paths.SEPARATOR];
    assert RemoveCsv(s) == d + stem;
    Paths.BasenameAfterSeparator(d, stem);
  }

  // ---------------------------------------------------------------------------
  // The whole script, with the Slack calls' answers as input
  // ---------------------------------------------------------------------------

  /**
   * The script's main block once its inputs have been validated and read:
   * the run's name, the log of every row, and the summary printed at the end.
   */
  method CreateChannels(csvPath: string, attempts: seq<Attempt>) returns (csvName: string, log: LogData, summary: Summary)
    ensures csvName == CsvName(csvPath)
    ensures fresh(log) && log.Valid() && log.Rows() == |attempts|
    ensures forall k :: 0 <= k < |attempts| ==> log.Entry(k) == RowOutcome(attempts[k])
    ensures summary.total == |attempts|
    ensures summary.successful == CountAllSucceeded(attempts)
    ensures summary.failed == |attempts| - CountAllSucceeded(attempts)
  {
    csvName := Paths.Basename(RemoveCsv(csvPath));
    log := ProvisionChannels(attempts);
    SummaryOfRun(attempts);
    summary := Summarize(log.successes);
  }
}
