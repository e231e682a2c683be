/**
  The `scheduled_messages` table of server/routes/whatsapp.js: `schedule`
  appends a row when the user's session is ready, and `scheduled/:userId`
  selects one user's rows in ascending order of `scheduled_time`. Nothing in
  the application ever updates or deletes a row, so `status` keeps its
  default forever.
 */
module Messages {
  import opened Http
  import opened Sessions

  const ClientNotReady := "WhatsApp client not ready"
  const FailedToSchedule := "Failed to schedule message"

  /** The column default of `status`, and the only value it ever takes. */
  const StatusScheduled := "scheduled"

  /** Width of the VARCHAR(20) column `phone_number`. */
  const PhoneWidth: nat := 20

  /** A row of `scheduled_messages`; `scheduledTime` is the TIMESTAMP as an ordered instant. */
  datatype ScheduledMessage = ScheduledMessage(
    id: nat,
    userId: UserId,
    phoneNumber: string,
    message: string,
    scheduledTime: int,
    status: string)

  /** The rows in insertion order and the next value of the SERIAL `id`. */
  datatype Table = Table(rows: seq<ScheduledMessage>, nextId: nat)

  const Empty := Table([], 1)

  /** Every row has an id already handed out, no two rows share an id, and every status is the default. */
  ghost predicate WellFormed(t: Table)
  {
    && (forall i | 0 <= i < |t.rows| :: t.rows[i].id < t.nextId && t.rows[i].status == StatusScheduled)
    && (forall i, j | 0 <= i < j < |t.rows| :: t.rows[i].id != t.rows[j].id)
  }

  /** The guard of `schedule`: an entry exists and its client fired `ready`. */
  predicate IsReady(reg: Registry, userId: UserId)
  {
    userId in reg && reg[userId].ready
  }

  /**
    Whether Postgres accepts `v` into a VARCHAR(width) column: a longer value
    is an error unless every character past the width is a space.
   */
  predicate FitsVarchar(v: string, width: nat)
  {
    forall k | width <= k < |v| :: v[k] == ' '
  }

  /** The value a VARCHAR(width) column keeps: `v` cut to the width. */
  function Stored(v: string, width: nat): (r: string)
    ensures r <= v && |r| <= width
    ensures |v| <= width ==> r == v
    ensures FitsVarchar(v, width) ==> forall k | |r| <= k < |v| :: v[k] == ' '
  {
    if |v| <= width then v else v[..width]
  }

  /**
    Whether the INSERT meets the table's constraints: `user_id` references an
    existing user and the phone number fits VARCHAR(20).
   */
  predicate InsertAllowed(userIds: set<UserId>, userId: UserId, phoneNumber: string)
  {
    userId in userIds && FitsVarchar(phoneNumber, PhoneWidth)
  }

  /** `POST /schedule`: the new table and the response; `userIds` are the ids of the users table. */
  function ScheduleStep(reg: Registry, userIds: set<UserId>, t: Table, userId: UserId, phoneNumber: string,
                        message: string, scheduledTime: int): (r: (Table, Response<ScheduledMessage>))
    ensures !IsReady(reg, userId) ==> r == (t, Response(BadRequest, Error(ClientNotReady)))
    ensures r.1.status == OK <==> IsReady(reg, userId) && InsertAllowed(userIds, userId, phoneNumber)
    ensures IsReady(reg, userId) && !InsertAllowed(userIds, userId, phoneNumber) ==>
              r == (t, Response(InternalError, Error(FailedToSchedule)))
    ensures r.1.status != OK ==> r.0 == t && r.1.status in {BadRequest, InternalError} && r.1.body.Error?
    // success appends exactly the returned row, carrying the request's fields and the default status;
    // the phone number loses only the trailing spaces past the column width
    ensures r.1.status == OK ==>
              && r.1.body.Data?
              && r.0.rows == t.rows + [r.1.body.value]
              && r.1.body.value.userId == userId
              && r.1.body.value.phoneNumber <= phoneNumber
              && |r.1.body.value.phoneNumber| == (if |phoneNumber| <= PhoneWidth then |phoneNumber| else PhoneWidth)
              && (forall k | |r.1.body.value.phoneNumber| <= k < |phoneNumber| :: phoneNumber[k] == ' ')
              && r.1.body.value.message == message
              && r.1.body.value.scheduledTime == scheduledTime
              && r.1.body.value.status == StatusScheduled
    ensures WellFormed(t) && r.1.status == OK ==> forall i | 0 <= i < |t.rows| :: t.rows[i].id != r.1.body.value.id
    ensures WellFormed(t) ==> WellFormed(r.0)
  {
    if !IsReady(reg, userId) then
      (t, Response(BadRequest, Error(ClientNotReady)))
    else if !InsertAllowed(userIds, userId, phoneNumber) then
      (t, Response(InternalError, Error(FailedToSchedule)))
    else
      var row := ScheduledMessage(t.nextId, userId, Stored(phoneNumber, PhoneWidth), message, scheduledTime,
                                  StatusScheduled);
      (Table(t.rows + [row], t.nextId + 1), Response(OK, Data(row)))
  }

  /**
    A phone number longer than the column but padded only with spaces is
    accepted and stored cut to 20 characters.
   */
  lemma PaddedPhoneIsCut(reg: Registry, userIds: set<UserId>, t: Table, userId: UserId,
                         message: string, scheduledTime: int)
    requires IsReady(reg, userId) && userId in userIds
    ensures var r := ScheduleStep(reg, userIds, t, userId, "+15551234567" + "          ", message, scheduledTime);
            r.1.status == OK && r.1.body.value.phoneNumber == "+15551234567" + "        "
  {
  }

  ghost predicate SortedByTime(s: seq<ScheduledMessage>)
  {
    forall i, j | 0 <= i < j < |s| :: s[i].scheduledTime <= s[j].scheduledTime
  }

  /** The rows of one user, in table order (`WHERE user_id = $1`). */
  function OwnedBy(rows: seq<ScheduledMessage>, userId: UserId): (r: seq<ScheduledMessage>)
    ensures forall m :: m in r <==> m in rows && m.userId == userId
    ensures |r| <= |rows|
  {
    if rows == [] then []
    else (if rows[0].userId == userId then [rows[0]] else []) + OwnedBy(rows[1..], userId)
  }

  /** Places `m` before the first row of `s` that is not earlier than it. */
  function InsertByTime(m: ScheduledMessage, s: seq<ScheduledMessage>): seq<ScheduledMessage>
  {
    if s == [] then [m]
    else if m.scheduledTime <= s[0].scheduledTime then [m] + s
    else [s[0]] + InsertByTime(m, s[1..])
  }

  /** Insertion adds exactly `m` and loses nothing. */
  lemma {:induction false} InsertPermutes(m: ScheduledMessage, s: seq<ScheduledMessage>)
    ensures multiset(InsertByTime(m, s)) == multiset(s) + multiset{m}
  {
    if s != [] && m.scheduledTime > s[0].scheduledTime {
      InsertPermutes(m, s[1..]);
      assert s == [s[0]] + s[1..];
    }
  }

  /** Every row of `s` is scheduled no earlier than `t`. */
  ghost predicate NotBefore(t: int, s: seq<ScheduledMessage>)
  {
    forall k | 0 <= k < |s| :: t <= s[k].scheduledTime
  }

  /** A lower bound of `m` and of `s` is one of the insertion's result. */
  lemma {:induction false} InsertNotBefore(t: int, m: ScheduledMessage, s: seq<ScheduledMessage>)
    requires t <= m.scheduledTime && NotBefore(t, s)
    ensures NotBefore(t, InsertByTime(m, s))
  {
    if s != [] && m.scheduledTime > s[0].scheduledTime {
      InsertNotBefore(t, m, s[1..]);
      var rest := InsertByTime(m, s[1..]);
      assert InsertByTime(m, s) == [s[0]] + rest;
    }
  }

  /** Insertion into a time-ordered sequence keeps it ordered. */
  lemma {:induction false} InsertKeepsSorted(m: ScheduledMessage, s: seq<ScheduledMessage>)
    requires SortedByTime(s)
    ensures SortedByTime(InsertByTime(m, s))
  {
    if s == [] {
    } else if m.scheduledTime <= s[0].scheduledTime {
      var r := [m] + s;
      forall i, j | 0 <= i < j < |r| ensures r[i].scheduledTime <= r[j].scheduledTime {
        assert r[j] == s[j - 1];
        if i > 0 {
          assert r[i] == s[i - 1];
        }
      }
    } else {
      var tail := s[1..];
      assert SortedByTime(tail) by {
        forall i, j | 0 <= i < j < |tail| ensures tail[i].scheduledTime <= tail[j].scheduledTime {
          assert tail[i] == s[i + 1] && tail[j] == s[j + 1];
        }
      }
      assert NotBefore(s[0].scheduledTime, tail) by {
        forall k | 0 <= k < |tail| ensures s[0].scheduledTime <= tail[k].scheduledTime {
          assert tail[k] == s[k + 1];
        }
      }
      InsertKeepsSorted(m, tail);
      InsertNotBefore(s[0].scheduledTime, m, tail);
      var rest := InsertByTime(m, tail);
      var r := [s[0]] + rest;
      forall i, j | 0 <= i < j < |r| ensures r[i].scheduledTime <= r[j].scheduledTime {
        assert r[j] == rest[j - 1];
        if i > 0 {
          assert r[i] == rest[i - 1];
        }
      }
      assert SortedByTime(r);
    }
  }

  /** `ORDER BY scheduled_time ASC`, as an insertion sort. */
  function SortByTime(s: seq<ScheduledMessage>): (r: seq<ScheduledMessage>)
    ensures SortedByTime(r)
    ensures multiset(r) == multiset(s)
  {
    if s == [] then []
    else
      var rest := SortByTime(s[1..]);
      InsertKeepsSorted(s[0], rest);
      InsertPermutes(s[0], rest);
      assert multiset(s) == multiset(s[1..]) + multiset{s[0]} by {
        assert s == [s[0]] + s[1..];
      }
      InsertByTime(s[0], rest)
  }

  /**
    `GET /scheduled/:userId`, which only reads the table: exactly the user's
    rows, as a permutation of them, in ascending time. No rows give [].
   */
  function ListScheduled(rows: seq<ScheduledMessage>, userId: UserId): (r: seq<ScheduledMessage>)
    ensures SortedByTime(r)
    ensures multiset(r) == multiset(OwnedBy(rows, userId))
    ensures forall m :: m in r <==> m in rows && m.userId == userId
  {
    var r := SortByTime(OwnedBy(rows, userId));
    assert forall m :: m in r <==> m in multiset(OwnedBy(rows, userId));
    r
  }

  /** A user without messages gets an empty list, not an error. */
  lemma {:induction false} ListEmptyWhenNone(rows: seq<ScheduledMessage>, userId: UserId)
    requires forall i | 0 <= i < |rows| :: rows[i].userId != userId
    ensures ListScheduled(rows, userId) == []
  {
    if rows != [] {
      assert forall i | 0 <= i < |rows[1..]| :: rows[1..][i] == rows[i + 1];
      ListEmptyWhenNone(rows[1..], userId);
      assert OwnedBy(rows[1..], userId) == [];
    }
    assert |ListScheduled(rows, userId)| == |multiset(OwnedBy(rows, userId))|;
  }

  /** Appending a row extends the selection of its owner by that row and leaves every other user's alone. */
  lemma {:induction false} OwnedByAppend(rows: seq<ScheduledMessage>, m: ScheduledMessage, userId: UserId)
    ensures OwnedBy(rows + [m], userId) == OwnedBy(rows, userId) + (if m.userId == userId then [m] else [])
  {
    var tail := if m.userId == userId then [m] else [];
    if rows == [] {
      assert OwnedBy([m], userId) == tail + OwnedBy([], userId);
    } else {
      var head := if rows[0].userId == userId then [rows[0]] else [];
      assert (rows + [m])[0] == rows[0];
      assert (rows + [m])[1..] == rows[1..] + [m];
      OwnedByAppend(rows[1..], m, userId);
      calc {
        OwnedBy(rows + [m], userId);
        head + OwnedBy(rows[1..] + [m], userId);
        head + (OwnedBy(rows[1..], userId) + tail);
        (head + OwnedBy(rows[1..], userId)) + tail;
        OwnedBy(rows, userId) + tail;
      }
    }
  }

  /** A message that `schedule` accepted is listed for its user from then on. */
  lemma ScheduledIsListed(reg: Registry, userIds: set<UserId>, t: Table, userId: UserId,
                          phoneNumber: string, message: string, scheduledTime: int)
    ensures var r := ScheduleStep(reg, userIds, t, userId, phoneNumber, message, scheduledTime);
            r.1.status == OK ==> r.1.body.value in ListScheduled(r.0.rows, userId)
  {
    var r := ScheduleStep(reg, userIds, t, userId, phoneNumber, message, scheduledTime);
    if r.1.status == OK {
      assert r.1.body.value in r.0.rows;
    }
  }

  /** Scheduling for one user leaves every other user's list exactly as it was. */
  lemma {:induction false} ScheduleKeepsOtherLists(reg: Registry, userIds: set<UserId>, t: Table, userId: UserId,
                                                   phoneNumber: string, message: string, scheduledTime: int,
                                                   other: UserId)
    requires other != userId
    ensures var r := ScheduleStep(reg, userIds, t, userId, phoneNumber, message, scheduledTime);
            ListScheduled(r.0.rows, other) == ListScheduled(t.rows, other)
  {
    var r := ScheduleStep(reg, userIds, t, userId, phoneNumber, message, scheduledTime);
    if r.1.status == OK {
      var row := r.1.body.value;
      assert r.0.rows == t.rows + [row];
      OwnedByAppend(t.rows, row, other);
      assert OwnedBy(r.0.rows, other) == OwnedBy(t.rows, other);
    }
  }

  /**
    Whatever the history, a listed message still has status 'scheduled':
    `ScheduleStep` only appends rows with that status and keeps `WellFormed`,
    which carries it.
   */
  lemma StatusFrozen(t: Table, userId: UserId)
    requires WellFormed(t)
    ensures forall m | m in ListScheduled(t.rows, userId) :: m.status == StatusScheduled
  {
  }

  /**
    Right after `init` (before the client fired `ready`) a schedule request is
    refused with 400 and stores nothing.
   */
  lemma ScheduleBeforeReady(reg: Registry, userId: UserId, userIds: set<UserId>, t: Table,
                            phoneNumber: string, message: string, scheduledTime: int)
    requires userId !in reg
    ensures var reg' := InitStep(reg, userId, NoFault).0;
            ScheduleStep(reg', userIds, t, userId, phoneNumber, message, scheduledTime)
              == (t, Response(BadRequest, Error(ClientNotReady)))
  {
  }

  /** Messages inserted at Jan 3, Jan 1 and Jan 2 are listed as Jan 1, Jan 2, Jan 3 (times in hours). */
  lemma ListingOrderExample(phone: string, text: string)
    ensures var jan3 := ScheduledMessage(1, 42, phone, text, 58, StatusScheduled);
            var jan1 := ScheduledMessage(2, 42, phone, text, 10, StatusScheduled);
            var jan2 := ScheduledMessage(3, 42, phone, text, 34, StatusScheduled);
            ListScheduled([jan3, jan1, jan2], 42) == [jan1, jan2, jan3]
  {
    var jan3 := ScheduledMessage(1, 42, phone, text, 58, StatusScheduled);
    var jan1 := ScheduledMessage(2, 42, phone, text, 10, StatusScheduled);
    var jan2 := ScheduledMessage(3, 42, phone, text, 34, StatusScheduled);
    var rows := [jan3, jan1, jan2];
    assert OwnedBy(rows, 42) == rows by {
      assert rows[1..] == [jan1, jan2] && [jan1, jan2][1..] == [jan2] && [jan2][1..] == [];
      assert OwnedBy([jan2], 42) == [jan2];
      assert OwnedBy([jan1, jan2], 42) == [jan1, jan2];
    }
    assert SortByTime([jan2]) == [jan2] by {
      assert [jan2][1..] == [];
    }
    assert SortByTime([jan1, jan2]) == [jan1, jan2] by {
      assert [jan1, jan2][1..] == [jan2];
      assert InsertByTime(jan1, [jan2]) == [jan1, jan2];
    }
    assert InsertByTime(jan3, [jan1, jan2]) == [jan1, jan2, jan3] by {
      assert [jan1, jan2][1..] == [jan2] && [jan2][1..] == [];
      assert InsertByTime(jan3, []) == [jan3];
      assert InsertByTime(jan3, [jan2]) == [jan2] + [jan3];
      assert [jan1] + [jan2, jan3] == [jan1, jan2, jan3];
    }
    assert SortByTime(rows) == [jan1, jan2, jan3] by {
      assert rows[1..] == [jan1, jan2];
    }
  }

  /** The imperative form: the table as a sequence that `Schedule` only ever appends to. */
  class MessageTable {
    var rows: seq<ScheduledMessage>
    var nextId: nat

    function Contents(): Table
      reads this
    {
      Table(rows, nextId)
    }

    ghost predicate Valid()
      reads this
    {
      WellFormed(Contents())
    }

    constructor ()
      ensures Contents() == Empty && Valid()
    {
      rows := [];
      nextId := 1;
    }

    /**
      `userIds` are the ids of the users table (`Auth.AuthState.users`), which
      the foreign key `user_id REFERENCES users(id)` checks against.
     */
    method Schedule(registry: SessionRegistry, userIds: set<UserId>, userId: UserId, phoneNumber: string,
                    message: string, scheduledTime: int) returns (r: Response<ScheduledMessage>)
      requires Valid()
      modifies this
      ensures Valid()
      ensures (Contents(), r) == ScheduleStep(registry.clients, userIds, old(Contents()), userId, phoneNumber,
                                              message, scheduledTime)
    {
      if !IsReady(registry.clients, userId) {
        return Response(BadRequest, Error(ClientNotReady));
      }
      if !InsertAllowed(userIds, userId, phoneNumber) {
        return Response(InternalError, Error(FailedToSchedule));
      }
      var row := ScheduledMessage(nextId, userId, Stored(phoneNumber, PhoneWidth), message, scheduledTime,
                                  StatusScheduled);
      rows := rows + [row];
      nextId := nextId + 1;
      return Response(OK, Data(row));
    }
  }
}
