/**
 * The chat room page of the client: the countdown text and colour, the
 * countdown itself with its roll-over into the next cycle, and the
 * component state that the socket events update.
 */
module ChatClient {
  import opened Wrappers
  import opened OrderedSet
  import opened Protocol
  import opened Decimal
  import Cycle

  /** The window length the client's timer hard-codes; it equals the server's MessageExpiry. */
  const CycleLength: int := 600000

  // ---------------------------------------------------------------- formatTime

  /** `padStart(2, '0')`. */
  function PadStart2(s: string): (r: string)
    ensures |s| >= 2 ==> r == s
    ensures |s| < 2 ==> |r| == 2 && r[2 - |s|..] == s && forall i :: 0 <= i < 2 - |s| ==> r[i] == '0'
  {
    if |s| >= 2 then s else if |s| == 1 then "0" + s else "00"
  }

  /** The seconds part of the countdown: two digits whose value is the seconds. */
  lemma PaddedSeconds(secs: nat)
    requires secs < 60
    ensures |PadStart2(NatToString(secs))| == 2
    ensures AllDigits(PadStart2(NatToString(secs))) && ParseNat(PadStart2(NatToString(secs))) == secs
  {
    var digits := NatToString(secs);
    var padded := PadStart2(digits);
    if secs < 10 {
      assert padded == ['0', digits[0]];
      assert padded[..1] == ['0'];
      assert digits[..0] == [];
    } else {
      assert |NatToString(secs / 10)| == 1;
      assert padded == digits;
    }
  }

  /** Where the pieces of "minutes:ss" sit in the joined text. */
  lemma JoinedAtColon(minutes: string, secs: string)
    requires |secs| == 2
    ensures |minutes + ":" + secs| == |minutes| + 3
    ensures (minutes + ":" + secs)[|minutes|] == ':'
    ensures (minutes + ":" + secs)[..|minutes|] == minutes
    ensures (minutes + ":" + secs)[|minutes| + 1..] == secs
  {
  }

  /**
   * formatTime: whole minutes in decimal, a colon, then the leftover seconds
   * as exactly two digits.
   */
  function FormatTime(seconds: nat): (text: string)
    ensures |text| >= 4 && text[|text| - 3] == ':'
    ensures AllDigits(text[..|text| - 3]) && ParseNat(text[..|text| - 3]) == seconds / 60
    ensures AllDigits(text[|text| - 2..]) && ParseNat(text[|text| - 2..]) == seconds % 60
    ensures text[0] == '0' ==> |text| == 4
  {
    var minutes := NatToString(seconds / 60);
    var padded := PadStart2(NatToString(seconds % 60));
    PaddedSeconds(seconds % 60);
    JoinedAtColon(minutes, padded);
    minutes + ":" + padded
  }

  /** Reads an "m:ss" countdown text back as seconds. */
  function ParseTime(text: string): Option<nat>
  {
    if |text| >= 4 && text[|text| - 3] == ':'
       && AllDigits(text[..|text| - 3]) && AllDigits(text[|text| - 2..])
       && ParseNat(text[|text| - 2..]) < 60
    then Some(ParseNat(text[..|text| - 3]) * 60 + ParseNat(text[|text| - 2..]))
    else None
  }

  /** The countdown text gives back the seconds it was made from. */
  lemma FormatTimeRoundTrip(seconds: nat)
    ensures ParseTime(FormatTime(seconds)) == Some(seconds)
  {
  }

  // ---------------------------------------------------------- getProgressColor

  const Green: string := "#4CAF50"
  const Yellow: string := "#FFC107"
  const Red: string := "#F44336"

  /** getProgressColor: green above five minutes, yellow above two, red from there on. */
  function ProgressColor(timeLeft: int): (color: string)
    ensures color == Green <==> timeLeft > 300
    ensures color == Yellow <==> 120 < timeLeft <= 300
    ensures color == Red <==> timeLeft <= 120
  {
    if timeLeft > 300 then Green else if timeLeft > 120 then Yellow else Red
  }

  /** How alarming a colour is: green 0, yellow 1, red 2. */
  function Urgency(color: string): nat
  {
    if color == Green then 0 else if color == Yellow then 1 else 2
  }

  /** As the time left shrinks, the colour only moves from green towards red. */
  lemma ProgressColorNeverRelaxes(later: int, earlier: int)
    requires later <= earlier
    ensures Urgency(ProgressColor(earlier)) <= Urgency(ProgressColor(later))
  {
  }

  // ----------------------------------------------------------------- countdown

  /** `Math.ceil(d / 1000)` for a whole number of milliseconds `d`. */
  function CeilDiv1000(d: int): (q: int)
    ensures (q - 1) * 1000 < d <= q * 1000
  {
    -((-d) / 1000)
  }

  /**
   * updateTimer's `Math.max(0, Math.ceil((cycleStartTime + 600000 - now) / 1000))`:
   * the whole seconds, rounded up, until the next cycle begins.
   */
  function Remaining(cycleStart: int, now: int): (seconds: nat)
    ensures seconds == 0 <==> cycleStart + CycleLength <= now
    ensures seconds > 0 ==> (seconds - 1) * 1000 < cycleStart + CycleLength - now <= seconds * 1000
    ensures cycleStart <= now ==> seconds <= 600
  {
    var q := CeilDiv1000(cycleStart + CycleLength - now);
    if q > 0 then q else 0
  }

  /**
   * At the same clock reading, a countdown started from the server's current
   * boundary shows between one and six hundred seconds.
   */
  lemma CountdownFromServerBoundary(createdAt: int, now: int)
    ensures 1 <= Remaining(Cycle.CycleStart(createdAt, now), now) <= 600
  {
  }

  /**
   * The client's roll-over agrees with the server at the same clock reading:
   * once the clock has passed
   * the end of the window that began at the server's boundary, the boundary
   * plus one window is the server's boundary for the new time, as long as
   * no more than one window was skipped.
   */
  lemma RollOverMatchesServer(createdAt: int, joinedAt: int, now: int)
    requires Remaining(Cycle.CycleStart(createdAt, joinedAt), now) == 0
    requires now < Cycle.CycleStart(createdAt, joinedAt) + 2 * CycleLength
    ensures Cycle.CycleStart(createdAt, joinedAt) + CycleLength == Cycle.CycleStart(createdAt, now)
  {
    var start := Cycle.CycleStart(createdAt, joinedAt);
    assert (start + CycleLength - createdAt) % Cycle.MessageExpiry == 0 by {
      assert start + CycleLength - createdAt == (start - createdAt) + Cycle.MessageExpiry;
    }
    Cycle.CycleStartUnique(createdAt, now, start + CycleLength);
  }

  // ----------------------------------------------------------- component state

  /** A snapshot of the chat room component's state. */
  datatype View = View(
    username: string,
    messages: seq<Message>,
    users: seq<string>,
    typingUsers: seq<string>,
    timeLeft: int,
    roomCreatedAt: Option<int>,
    cycleStartTime: Option<int>,
    usernameError: Option<string>,
    isJoined: bool)

  /** The ChatRoom component's state; each setter call becomes a field assignment. */
  class ChatRoomState {
    const roomId: string
    var username: string
    var messages: seq<Message>
    var users: seq<string>
    var typingUsers: seq<string>   // a Set, in insertion order
    var timeLeft: int
    var roomCreatedAt: Option<int>
    var cycleStartTime: Option<int>
    var usernameError: Option<string>
    var isJoined: bool

    ghost predicate Valid()
      reads this
    {
      Distinct(typingUsers) && 0 <= timeLeft
    }

    function State(): View
      reads this
    {
      View(username, messages, users, typingUsers, timeLeft, roomCreatedAt, cycleStartTime, usernameError, isJoined)
    }

    /** The initial values of the component's useState calls. */
    constructor (roomId: string)
      ensures Valid() && this.roomId == roomId
      ensures State() == View("", [], [], [], 600, None, None, Some(""), false)
    {
      this.roomId := roomId;
      username, messages, users, typingUsers := "", [], [], [];
      timeLeft, roomCreatedAt, cycleStartTime := 600, None, None;
      usernameError, isJoined := Some(""), false;
    }

    /** handleUsernameChange: the typed name replaces the old one and the error is cleared. */
    method ChangeUsername(name: string)
      requires Valid()
      modifies this
      ensures Valid()
      ensures State() == old(State()).(username := name, usernameError := Some(""))
    {
      username, usernameError := name, Some("");
    }

    /**
     * updateTimer, run while the cycle start is truthy: the time left is
     * recomputed, and at zero the messages are dropped and the cycle start
     * moves on by exactly one window.
     */
    method Tick(now: int)
      requires Valid()
      modifies this
      ensures Valid()
      ensures !(old(cycleStartTime).Some? && old(cycleStartTime).value != 0) ==> State() == old(State())
      ensures old(cycleStartTime).Some? && old(cycleStartTime).value != 0 ==>
                var start := old(cycleStartTime).value;
                var left := Remaining(start, now);
                && timeLeft == left
                && (now >= start ==> timeLeft <= 600)
                && (left == 0 ==> State() == old(State()).(timeLeft := 0, messages := [],
                                                           cycleStartTime := Some(start + CycleLength)))
                && (left != 0 ==> State() == old(State()).(timeLeft := left))
    {
      if cycleStartTime.Some? && cycleStartTime.value != 0 {
        var nextCycleStart := cycleStartTime.value + CycleLength;
        var remaining := Remaining(cycleStartTime.value, now);
        timeLeft := remaining;
        if remaining == 0 {
          messages := [];
          cycleStartTime := Some(nextCycleStart);
        }
      }
    }

    /** room_joined: the log, creation time and cycle start are taken from the payload. */
    method OnRoomJoined(log: seq<Message>, createdAt: int, cycleStart: int)
      requires Valid()
      modifies this
      ensures Valid()
      ensures State() == old(State()).(messages := log, roomCreatedAt := Some(createdAt),
                                       cycleStartTime := Some(cycleStart))
    {
      messages := log;
      roomCreatedAt := Some(createdAt);
      cycleStartTime := Some(cycleStart);
    }

    /** receive_message: the message goes last, and its sender stops showing as typing. */
    method OnReceiveMessage(msg: Message)
      requires Valid()
      modifies this
      ensures Valid()
      ensures messages == old(messages) + [msg]
      ensures forall u :: u in typingUsers <==> u in old(typingUsers) && Some(u) != msg.username
      ensures typingUsers == if msg.username.Some? then Remove(old(typingUsers), msg.username.value) else old(typingUsers)
      ensures State() == old(State()).(messages := messages, typingUsers := typingUsers)
    {
      messages := messages + [msg];
      if msg.username.Some? {
        typingUsers := Remove(typingUsers, msg.username.value);
      }
    }

    /** messages_cleared: the log empties and the cycle start becomes the payload's. */
    method OnMessagesCleared(cycleStart: int)
      requires Valid()
      modifies this
      ensures Valid()
      ensures State() == old(State()).(messages := [], cycleStartTime := Some(cycleStart))
    {
      messages := [];
      cycleStartTime := Some(cycleStart);
    }

    /** user_joined: the member list becomes the payload's. */
    method OnUserJoined(joinedUser: string, updatedUsers: seq<string>)
      requires Valid()
      modifies this
      ensures Valid()
      ensures State() == old(State()).(users := updatedUsers)
    {
      users := updatedUsers;
    }

    /** user_left: the member list becomes the payload's and the leaver stops showing as typing. */
    method OnUserLeft(leftUser: string, updatedUsers: seq<string>)
      requires Valid()
      modifies this
      ensures Valid()
      ensures forall u :: u in typingUsers <==> u in old(typingUsers) && u != leftUser
      ensures State() == old(State()).(users := updatedUsers, typingUsers := Remove(old(typingUsers), leftUser))
    {
      users := updatedUsers;
      typingUsers := Remove(typingUsers, leftUser);
    }

    /** user_typing: someone else typing is added to the typing set; the local name never is. */
    method OnUserTyping(typingUser: string)
      requires Valid()
      modifies this
      ensures Valid()
      ensures typingUser == username ==> State() == old(State())
      ensures typingUser != username ==>
                && (forall u :: u in typingUsers <==> u in old(typingUsers) || u == typingUser)
                && State() == old(State()).(typingUsers := Add(old(typingUsers), typingUser))
    {
      if typingUser != username {
        typingUsers := Add(typingUsers, typingUser);
      }
    }

    /** user_stopped_typing: exactly that user leaves the typing set. */
    method OnUserStoppedTyping(stoppedUser: string)
      requires Valid()
      modifies this
      ensures Valid()
      ensures forall u :: u in typingUsers <==> u in old(typingUsers) && u != stoppedUser
      ensures State() == old(State()).(typingUsers := Remove(old(typingUsers), stoppedUser))
    {
      typingUsers := Remove(typingUsers, stoppedUser);
    }

    /**
     * username_checked: an unavailable name shows the server's reason and
     * leaves the joined flag alone; an available one clears the error,
     * sends join_room and marks the page joined.
     */
    method OnUsernameChecked(isAvailable: bool, error: Option<string>) returns (requests: seq<Request>)
      requires Valid()
      modifies this
      ensures Valid()
      ensures !isAvailable ==> requests == [] && State() == old(State()).(usernameError := error)
      ensures isAvailable ==>
                && requests == [JoinRoom(roomId, username)]
                && State() == old(State()).(usernameError := Some(""), isJoined := true)
    {
      if !isAvailable {
        usernameError := error;
        requests := [];
      } else {
        usernameError := Some("");
        requests := [JoinRoom(roomId, username)];
        isJoined := true;
      }
    }

    /**
     * error: "Username already taken" un-joins the page and shows the
     * message; any other error leaves the state and sends the user home.
     */
    method OnError(message: string) returns (navigateHome: bool)
      requires Valid()
      modifies this
      ensures Valid()
      ensures navigateHome <==> message != UsernameTaken
      ensures message == UsernameTaken ==> State() == old(State()).(isJoined := false, usernameError := Some(message))
      ensures message != UsernameTaken ==> State() == old(State())
    {
      if message == UsernameTaken {
        isJoined := false;
        usernameError := Some(message);
        navigateHome := false;
      } else {
        navigateHome := true;
      }
    }
  }
}
