/** Watch-party rooms: members, host succession, and what each member has been told. */
module Rooms {
  import opened Model

  type Person = string

  /** Server to client. */
  datatype Message =
    | RoomState(host: Person, position: real, isPlaying: bool)
    | Playback(action: string, position: real, sender: Person)
    | MemberJoined(who: Person)
    | MemberLeft(who: Person)
    | Refused

  /** What a client goes through: messages from the server and, for the host, its own actions. */
  datatype Input = Received(message: Message) | Acted(action: string, position: Option<real>)

  /** The state a client shows. */
  datatype View = View(host: Person, position: real, isPlaying: bool)

  /** A member in the order of joining; `since` numbers the joins. */
  datatype Member = Member(id: Person, since: nat, position: real, inbox: seq<Input>)

  datatype Room = Room(host: Person, members: seq<Member>, position: real, isPlaying: bool)

  /******* The client rule *******/

  function Play(view: View, action: string, position: real): View {
    if action == "play" || action == "pause" then view.(isPlaying := action == "play", position := position)
    else if action == "seek" then view.(position := position)
    else view
  }

  function Apply(view: View, input: Input): View {
    match input
    case Received(RoomState(h, p, playing)) => View(h, p, playing)
    case Received(Playback(action, p, _)) => Play(view, action, p)
    case Received(_) => view
    case Acted(action, p) => Play(view, action, p.GetOr(view.position))
  }

  /** The view after everything a client went through; none before the first room_state. */
  function Replay(inbox: seq<Input>): Option<View> {
    if inbox == [] then None
    else
      var n := |inbox| - 1;
      match inbox[n]
      case Received(RoomState(h, p, playing)) => Some(View(h, p, playing))
      case _ =>
        match Replay(inbox[..n])
        case None => None
        case Some(view) => Some(Apply(view, inbox[n]))
  }

  lemma ReplayOne(inbox: seq<Input>, input: Input)
    ensures input.Received? && input.message.RoomState? ==>
      Replay(inbox + [input]) == Some(View(input.message.host, input.message.position, input.message.isPlaying))
    ensures Replay(inbox).Some? ==> Replay(inbox + [input]) == Some(Apply(Replay(inbox).value, input))
  {
  }

  /******* The server's room *******/

  function ViewOf(room: Room): View {
    View(room.host, room.position, room.isPlaying)
  }

  predicate IsMember(members: seq<Member>, who: Person) {
    exists i :: 0 <= i < |members| && members[i].id == who
  }

  /** Every member's replay is the server's state. */
  ghost predicate Agreed(room: Room) {
    forall i :: 0 <= i < |room.members| ==> Replay(room.members[i].inbox) == Some(ViewOf(room))
  }

  /** Members are different people in the order of joining. */
  ghost predicate Ordered(members: seq<Member>, arrivals: nat) {
    && (forall i, j :: 0 <= i < j < |members| ==> members[i].id != members[j].id)
    && (forall i, j :: 0 <= i < j < |members| ==> members[i].since < members[j].since)
    && (forall i :: 0 <= i < |members| ==> members[i].since < arrivals)
  }

  /** The same people in the same places, whatever they have been told. */
  ghost predicate SamePlaces(a: seq<Member>, b: seq<Member>) {
    |a| == |b| && forall i :: 0 <= i < |a| ==> a[i].id == b[i].id && a[i].since == b[i].since
  }

  /** The host is a current member, or has not joined yet while someone else is waiting or nobody came. */
  ghost predicate Hosted(room: Room, joined: set<Person>) {
    && (forall i :: 0 <= i < |room.members| ==> room.members[i].id in joined)
    && (room.host in joined ==> IsMember(room.members, room.host))
  }

  /** What holds of a room between two events. */
  ghost predicate RoomOk(room: Room, arrivals: nat, joined: set<Person>) {
    Agreed(room) && Ordered(room.members, arrivals) && Hosted(room, joined)
  }

  function Tell(m: Member, input: Input): Member {
    m.(inbox := m.inbox + [input])
  }

  /** Broadcast to all members but the excluded one. */
  function Told(members: seq<Member>, message: Message, except: Option<Person>): (r: seq<Member>)
    ensures |r| == |members|
    ensures forall i :: 0 <= i < |members| ==>
      r[i] == if Some(members[i].id) == except then members[i] else Tell(members[i], Received(message))
  {
    seq(|members|, i requires 0 <= i < |members| =>
      if Some(members[i].id) == except then members[i] else Tell(members[i], Received(message)))
  }

  /** Only one member gets the input. */
  function ToldOne(members: seq<Member>, who: Person, input: Input): (r: seq<Member>)
    ensures |r| == |members|
    ensures forall i :: 0 <= i < |members| ==> r[i] == if members[i].id == who then Tell(members[i], input) else members[i]
  {
    seq(|members|, i requires 0 <= i < |members| => if members[i].id == who then Tell(members[i], input) else members[i])
  }

  /** The dictionary without the entry at `i`; the others keep their order. */
  function RemoveAt(members: seq<Member>, i: nat): (r: seq<Member>)
    requires i < |members|
    ensures |r| == |members| - 1
    ensures forall j :: 0 <= j < |r| ==> r[j] == members[if j < i then j else j + 1]
  {
    members[..i] + members[i + 1..]
  }

  function IndexOf(members: seq<Member>, who: Person): (i: nat)
    requires IsMember(members, who)
    ensures i < |members| && members[i].id == who
  {
    var n := |members| - 1;
    if members[n].id == who then n else IndexOf(members[..n], who)
  }

  /******* What the handlers do to a room *******/

  function Joined(room: Room, who: Person, since: nat): Room {
    room.(members := Told(room.members, MemberJoined(who), None)
                     + [Member(who, since, 0.0, [Received(RoomState(room.host, room.position, room.isPlaying))])])
  }

  /** The host's action as the server records it; an unknown action records nothing. */
  function Controlled(room: Room, action: string, position: real): Room {
    if action == "play" || action == "pause" then room.(isPlaying := action == "play", position := position)
    else if action == "seek" then room.(position := position)
    else room
  }

  /** A state message: refused for guests; the host's is recorded, applied by its client, and told to the others. */
  function Steered(room: Room, who: Person, action: string, position: Option<real>): Room {
    if room.host != who then room.(members := ToldOne(room.members, who, Received(Refused)))
    else
      var p := position.GetOr(room.position);
      var told := Told(ToldOne(room.members, who, Acted(action, position)), Playback(action, p, who), Some(who));
      Controlled(room, action, p).(members := told)
  }

  /** The members left behind, told of the departure and, if the host went, of the new host. */
  function LeftBy(room: Room, who: Person): Room
    requires IsMember(room.members, who) && |room.members| > 1
  {
    var rest := RemoveAt(room.members, IndexOf(room.members, who));
    var host := if room.host == who then rest[0].id else room.host;
    var told := Told(rest, MemberLeft(who), None);
    Room(host, if room.host == who then Told(told, RoomState(host, room.position, room.isPlaying), None) else told,
         room.position, room.isPlaying)
  }

  lemma JoinAgrees(room: Room, who: Person, since: nat)
    requires Agreed(room)
    ensures Agreed(Joined(room, who, since))
  {
  }

  lemma JoinKeepsOrder(room: Room, who: Person, arrivals: nat)
    requires Ordered(room.members, arrivals) && !IsMember(room.members, who)
    ensures Ordered(Joined(room, who, arrivals).members, arrivals + 1)
  {
  }

  lemma JoinKeepsOk(room: Room, who: Person, arrivals: nat, joined: set<Person>)
    requires RoomOk(room, arrivals, joined) && !IsMember(room.members, who)
    ensures RoomOk(Joined(room, who, arrivals), arrivals + 1, joined + {who})
  {
    JoinAgrees(room, who, arrivals);
    JoinKeepsOrder(room, who, arrivals);
    JoinKeepsHosted(room, who, arrivals, joined);
  }

  lemma JoinKeepsHosted(room: Room, who: Person, since: nat, joined: set<Person>)
    requires Hosted(room, joined)
    ensures Hosted(Joined(room, who, since), joined + {who})
  {
    var members := Joined(room, who, since).members;
    assert members[|room.members|].id == who;
    assert IsMember(members, who);
    if IsMember(room.members, room.host) {
      assert members[IndexOf(room.members, room.host)].id == room.host;
    }
  }

  /** Adding the member, telling it the state and announcing it to the others is one join. */
  lemma JoinInSteps(room: Room, who: Person, since: nat)
    requires !IsMember(room.members, who)
    ensures var state := Received(RoomState(room.host, room.position, room.isPlaying));
      Told(ToldOne(room.members + [Member(who, since, 0.0, [])], who, state), MemberJoined(who), Some(who))
        == Joined(room, who, since).members
  {
    var state := Received(RoomState(room.host, room.position, room.isPlaying));
    var last := Member(who, since, 0.0, []);
    var told := ToldOne(room.members + [last], who, state);
    assert [] + [state] == [state];
    assert told == room.members + [Tell(last, state)] by {
      forall i | 0 <= i < |room.members| ensures told[i] == room.members[i] {
      }
    }
    forall i | 0 <= i < |room.members|
      ensures Told(told, MemberJoined(who), Some(who))[i] == Joined(room, who, since).members[i]
    {
    }
  }

  lemma SteeringAgrees(room: Room, who: Person, action: string, position: Option<real>)
    requires Agreed(room)
    ensures Agreed(Steered(room, who, action, position))
    ensures ViewOf(Steered(room, who, action, position)) ==
      if room.host == who then Play(ViewOf(room), action, position.GetOr(room.position)) else ViewOf(room)
  {
    var p := position.GetOr(room.position);
    forall i | 0 <= i < |room.members|
      ensures Replay(Steered(room, who, action, position).members[i].inbox) == Some(ViewOf(Steered(room, who, action, position)))
    {
      var inbox := room.members[i].inbox;
      ReplayOne(inbox, Received(Refused));
      ReplayOne(inbox, Acted(action, position));
      ReplayOne(inbox, Received(Playback(action, p, who)));
    }
  }

  lemma LeavingAgrees(room: Room, who: Person)
    requires Agreed(room) && IsMember(room.members, who) && |room.members| > 1
    ensures Agreed(LeftBy(room, who))
  {
    var rest := RemoveAt(room.members, IndexOf(room.members, who));
    var after := LeftBy(room, who);
    forall i | 0 <= i < |rest| ensures Replay(after.members[i].inbox) == Some(ViewOf(after)) {
      ReplayOne(rest[i].inbox, Received(MemberLeft(who)));
      ReplayOne(rest[i].inbox + [Received(MemberLeft(who))], Received(RoomState(after.host, room.position, room.isPlaying)));
    }
  }

  lemma SamePlacesSameMembers(a: seq<Member>, b: seq<Member>, arrivals: nat)
    requires SamePlaces(a, b)
    ensures Ordered(a, arrivals) ==> Ordered(b, arrivals)
    ensures forall p :: IsMember(a, p) <==> IsMember(b, p)
  {
  }

  lemma RemoveKeepsOrder(members: seq<Member>, k: nat, arrivals: nat)
    requires Ordered(members, arrivals) && k < |members|
    ensures Ordered(RemoveAt(members, k), arrivals)
  {
  }

  lemma RemoveKeepsOthers(members: seq<Member>, k: nat, arrivals: nat, p: Person)
    requires Ordered(members, arrivals) && k < |members|
    ensures IsMember(RemoveAt(members, k), p) <==> IsMember(members, p) && p != members[k].id
  {
    var rest := RemoveAt(members, k);
    if IsMember(rest, p) {
      var i := IndexOf(rest, p);
      assert members[if i < k then i else i + 1].id == p;
    }
    if IsMember(members, p) && p != members[k].id {
      var i := IndexOf(members, p);
      assert rest[if i < k then i else i - 1].id == p;
    }
  }

  /** Host succession: the others stay, and a leaving host is followed by the member whose stay began first. */
  lemma Succession(room: Room, who: Person, arrivals: nat)
    requires Ordered(room.members, arrivals) && IsMember(room.members, who) && |room.members| > 1
    ensures Ordered(LeftBy(room, who).members, arrivals)
    ensures forall p :: IsMember(LeftBy(room, who).members, p) <==> IsMember(room.members, p) && p != who
    ensures var after := LeftBy(room, who);
      if room.host != who then after.host == room.host
      else after.host == after.members[0].id && forall i :: 0 <= i < |after.members| ==> after.members[0].since <= after.members[i].since
  {
    var k := IndexOf(room.members, who);
    RemoveKeepsOrder(room.members, k, arrivals);
    forall p ensures IsMember(RemoveAt(room.members, k), p) <==> IsMember(room.members, p) && p != who {
      RemoveKeepsOthers(room.members, k, arrivals, p);
    }
    SamePlacesSameMembers(RemoveAt(room.members, k), LeftBy(room, who).members, arrivals);
  }

  /** A member's own marker. */
  function Marked(room: Room, who: Person, position: real): Room
    requires IsMember(room.members, who)
  {
    var i := IndexOf(room.members, who);
    room.(members := room.members[i := room.members[i].(position := position)])
  }

  function Synced(room: Room, who: Person): Room {
    room.(members := ToldOne(room.members, who, Received(RoomState(room.host, room.position, room.isPlaying))))
  }

  lemma SamePlacesSameRoom(a: Room, b: Room, arrivals: nat, joined: set<Person>)
    requires SamePlaces(a.members, b.members) && a.host == b.host
    ensures Ordered(a.members, arrivals) ==> Ordered(b.members, arrivals)
    ensures Hosted(a, joined) ==> Hosted(b, joined)
  {
  }

  lemma SteeringKeepsOk(room: Room, who: Person, action: string, position: Option<real>, arrivals: nat, joined: set<Person>)
    requires RoomOk(room, arrivals, joined)
    ensures RoomOk(Steered(room, who, action, position), arrivals, joined)
    ensures ViewOf(Steered(room, who, action, position)) ==
      if room.host != who then ViewOf(room) else Play(ViewOf(room), action, position.GetOr(room.position))
  {
    SteeringAgrees(room, who, action, position);
    SamePlacesSameRoom(room, Steered(room, who, action, position), arrivals, joined);
  }

  lemma MarkingKeepsOk(room: Room, who: Person, position: real, arrivals: nat, joined: set<Person>)
    requires RoomOk(room, arrivals, joined) && IsMember(room.members, who)
    ensures RoomOk(Marked(room, who, position), arrivals, joined)
  {
    SamePlacesSameRoom(room, Marked(room, who, position), arrivals, joined);
  }

  lemma SyncKeepsOk(room: Room, who: Person, arrivals: nat, joined: set<Person>)
    requires RoomOk(room, arrivals, joined)
    ensures RoomOk(Synced(room, who), arrivals, joined)
  {
  }

  lemma LeavingKeepsOk(room: Room, who: Person, arrivals: nat, joined: set<Person>)
    requires RoomOk(room, arrivals, joined) && IsMember(room.members, who) && |room.members| > 1
    ensures RoomOk(LeftBy(room, who), arrivals, joined)
  {
    var after := LeftBy(room, who);
    LeavingAgrees(room, who);
    Succession(room, who, arrivals);
    forall i | 0 <= i < |after.members| ensures after.members[i].id in joined {
      assert IsMember(after.members, after.members[i].id);
      assert room.members[IndexOf(room.members, after.members[i].id)].id in joined;
    }
    if room.host == who {
      assert after.members[0].id == after.host;
    }
  }

  /******* Who is told what *******/

  /** A join changes nothing about the room; the others hear of it, the newcomer gets the state and nothing before it. */
  lemma JoinTells(room: Room, who: Person, since: nat)
    ensures var after, n := Joined(room, who, since), |room.members|;
      && after == room.(members := after.members) && |after.members| == n + 1
      && (forall i :: 0 <= i < n ==>
            after.members[i] == room.members[i].(inbox := room.members[i].inbox + [Received(MemberJoined(who))]))
      && after.members[n] == Member(who, since, 0.0, [Received(RoomState(room.host, room.position, room.isPlaying))])
  {
  }

  /** The host's play, pause or seek sets what it names; everybody else is told the action, its position and its sender. */
  lemma HostSteers(room: Room, action: string, position: Option<real>)
    ensures var after, p := Steered(room, room.host, action, position), if position.Some? then position.value else room.position;
      && after.host == room.host && |after.members| == |room.members|
      && after.isPlaying == (action == "play" || (action != "pause" && room.isPlaying))
      && after.position == (if action in {"play", "pause", "seek"} then p else room.position)
      && forall i :: 0 <= i < |room.members| ==>
           after.members[i] == room.members[i].(inbox := room.members[i].inbox +
             [if room.members[i].id == room.host then Acted(action, position) else Received(Playback(action, p, room.host))])
  {
  }

  /** A guest's state message changes nothing; only the guest is told. */
  lemma GuestIsRefused(room: Room, who: Person, action: string, position: Option<real>)
    requires room.host != who
    ensures var after := Steered(room, who, action, position);
      && after == room.(members := after.members) && |after.members| == |room.members|
      && forall i :: 0 <= i < |room.members| ==>
           after.members[i] == if room.members[i].id == who then room.members[i].(inbox := room.members[i].inbox + [Received(Refused)])
                               else room.members[i]
  {
  }

  /** Those who stay hear who left and, if that was the host, the state under the new host, in this order. */
  lemma LeavingTells(room: Room, who: Person)
    requires IsMember(room.members, who) && |room.members| > 1
    ensures var after, k := LeftBy(room, who), IndexOf(room.members, who);
      && after == room.(host := after.host, members := after.members) && |after.members| == |room.members| - 1
      && forall i :: 0 <= i < |after.members| ==>
           var m := room.members[if i < k then i else i + 1];
           after.members[i] == m.(inbox := m.inbox + [Received(MemberLeft(who))] +
             if room.host == who then [Received(RoomState(after.members[0].id, room.position, room.isPlaying))] else [])
  {
  }

  /** A marker moves alone, and a sync request is answered to the asker alone. */
  lemma MarkerAndSyncStayPrivate(room: Room, who: Person, position: real)
    requires IsMember(room.members, who)
    ensures var after, k := Marked(room, who, position), IndexOf(room.members, who);
      after == room.(members := room.members[k := room.members[k].(position := position)])
    ensures var after := Synced(room, who);
      && after == room.(members := after.members) && |after.members| == |room.members|
      && forall i :: 0 <= i < |room.members| ==>
           after.members[i] == if room.members[i].id != who then room.members[i]
             else room.members[i].(inbox := room.members[i].inbox + [Received(RoomState(room.host, room.position, room.isPlaying))])
  {
  }

  /******* The life of a room *******/

  /** The registry's entry for a code, how many joins there were, and who joined the room since it was made. */
  datatype Moment = Moment(room: Option<Room>, arrivals: nat, joined: set<Person>)

  const START := Moment(None, 0, {})

  datatype Happening =
    | Created(host: Person)
    | Connected(who: Person, storedHost: Person)
    | Stated(who: Person, action: string, position: Option<real>)
    | Beaten(who: Person, marker: real)
    | SyncAsked(who: Person)
    | Gone(who: Person)

  predicate Present(m: Moment, who: Person) {
    m.room.Some? && IsMember(m.room.value.members, who)
  }

  /** One connection per person: only someone absent connects, only a member sends or goes. */
  predicate CanHappen(m: Moment, h: Happening) {
    match h
    case Created(_) => m.room.None?
    case Connected(who, _) => !Present(m, who)
    case Stated(who, _, _) => Present(m, who)
    case Beaten(who, _) => Present(m, who)
    case SyncAsked(who) => Present(m, who)
    case Gone(who) => Present(m, who)
  }

  /** What happens next; something that cannot happen is skipped. */
  function Next(m: Moment, h: Happening): Moment {
    if !CanHappen(m, h) then m
    else
      match h
      case Created(host) => Moment(Some(Room(host, [], 0.0, false)), m.arrivals, {})
      case Connected(who, stored) =>
        Moment(Some(Joined(m.room.GetOr(Room(stored, [], 0.0, false)), who, m.arrivals)), m.arrivals + 1,
               (if m.room.Some? then m.joined else {}) + {who})
      case Stated(who, action, position) => m.(room := Some(Steered(m.room.value, who, action, position)))
      case Beaten(who, position) => m.(room := Some(Marked(m.room.value, who, position)))
      case SyncAsked(who) => m.(room := Some(Synced(m.room.value, who)))
      case Gone(who) => m.(room := if |m.room.value.members| == 1 then None else Some(LeftBy(m.room.value, who)))
  }

  /** The first to connect finds the room made anew for the stored host, stopped at the beginning. */
  lemma FirstConnectionMakesRoom(m: Moment, who: Person, storedHost: Person)
    requires m.room.None?
    ensures Next(m, Connected(who, storedHost)).room ==
      Some(Room(storedHost, [Member(who, m.arrivals, 0.0, [Received(RoomState(storedHost, 0.0, false))])], 0.0, false))
  {
    var made := Room(storedHost, [], 0.0, false);
    JoinTells(made, who, m.arrivals);
    assert Joined(made, who, m.arrivals).members == [Member(who, m.arrivals, 0.0, [Received(RoomState(storedHost, 0.0, false))])];
  }

  function After(happenings: seq<Happening>): Moment {
    if happenings == [] then START
    else
      var n := |happenings| - 1;
      Next(After(happenings[..n]), happenings[n])
  }

  ghost predicate MomentOk(m: Moment) {
    m.room.Some? ==> RoomOk(m.room.value, m.arrivals, m.joined)
  }

  lemma NextKeepsOk(m: Moment, h: Happening)
    requires MomentOk(m)
    ensures MomentOk(Next(m, h))
  {
    if CanHappen(m, h) {
      match h
      case Created(_) =>
      case Connected(who, stored) =>
        var room := m.room.GetOr(Room(stored, [], 0.0, false));
        JoinKeepsOk(room, who, m.arrivals, if m.room.Some? then m.joined else {});
      case Stated(who, action, position) => SteeringKeepsOk(m.room.value, who, action, position, m.arrivals, m.joined);
      case Beaten(who, position) => MarkingKeepsOk(m.room.value, who, position, m.arrivals, m.joined);
      case SyncAsked(who) => SyncKeepsOk(m.room.value, who, m.arrivals, m.joined);
      case Gone(who) =>
        if |m.room.value.members| > 1 {
          LeavingKeepsOk(m.room.value, who, m.arrivals, m.joined);
        }
    }
  }

  /** At every moment of every room, each member's view is the server's, and a host who joined is still there. */
  lemma {:induction false} AlwaysAgreed(happenings: seq<Happening>)
    ensures MomentOk(After(happenings))
  {
    if happenings == [] {
    } else {
      var n := |happenings| - 1;
      AlwaysAgreed(happenings[..n]);
      NextKeepsOk(After(happenings[..n]), happenings[n]);
    }
  }

  /** A room goes exactly when its last member leaves. */
  lemma RoomGoesWithLastMember(m: Moment, h: Happening)
    requires m.room.Some?
    ensures Next(m, h).room.None? <==> h.Gone? && Present(m, h.who) && |m.room.value.members| == 1
  {
  }

  /** The broadcast loop. */
  method TellEach(members: seq<Member>, message: Message, except: Option<Person>) returns (told: seq<Member>)
    ensures told == Told(members, message, except)
  {
    told := members;
    for k := 0 to |members|
      invariant |told| == |members|
      invariant forall i :: 0 <= i < k ==> told[i] == Told(members, message, except)[i]
      invariant forall i :: k <= i < |members| ==> told[i] == members[i]
    {
      if Some(members[k].id) != except {
        told := told[k := Tell(members[k], Received(message))];
      }
    }
  }

  /**
   The registry's entry for one room code, and the handlers of the room socket. Handlers of one code never look at
   another code's entry, so one entry shows them all.
   */
  class Entry {
    var room: Option<Room>
    /** Numbers the joins; the dictionary itself keeps their order. */
    var arrivals: nat
    /** Who has joined the room since it was created. */
    ghost var joined: set<Person>

    ghost function Now(): Moment
      reads this
    {
      Moment(room, arrivals, joined)
    }

    ghost predicate Valid()
      reads this
    {
      MomentOk(Now())
    }

    constructor ()
      ensures Valid() && Now() == START
    {
      room, arrivals, joined := None, 0, {};
    }

    method CreateRoom(host: Person)
      requires room.None?
      modifies this`room, this`joined
      ensures Valid() && Now() == Next(old(Now()), Created(host))
      ensures room == Some(Room(host, [], 0.0, false))
    {
      room := Some(Room(host, [], 0.0, false));
      joined := {};
    }

    /** Sends the message to the members one after the other. */
    method Broadcast(message: Message, except: Option<Person>)
      modifies this`room
      ensures old(room).None? ==> room.None?
      ensures old(room).Some? ==> room == Some(old(room).value.(members := Told(old(room).value.members, message, except)))
    {
      if room.None? {
        return;
      }
      var members := TellEach(room.value.members, message, except);
      room := Some(room.value.(members := members));
    }

    /** Sends the message to one member. */
    method Send(who: Person, input: Input)
      requires room.Some?
      modifies this`room
      ensures room == Some(old(room).value.(members := ToldOne(old(room).value.members, who, input)))
    {
      room := Some(room.value.(members := ToldOne(room.value.members, who, input)));
    }

    /** A socket opens: the room is made if need be, the member added, told the state, and announced to the others. */
    method Connect(who: Person, storedHost: Person)
      requires Valid() && !Present(Now(), who)
      modifies this
      ensures Valid() && Now() == Next(old(Now()), Connected(who, storedHost))
    {
      if room.None? {
        CreateRoom(storedHost);
      }
      ghost var before := room.value;
      JoinKeepsOk(before, who, arrivals, joined);
      JoinInSteps(before, who, arrivals);
      room := Some(room.value.(members := room.value.members + [Member(who, arrivals, 0.0, [])]));
      Send(who, Received(RoomState(room.value.host, room.value.position, room.value.isPlaying)));
      Broadcast(MemberJoined(who), Some(who));
      assert room.value == Joined(before, who, arrivals);
      joined := joined + {who};
      arrivals := arrivals + 1;
    }

    /** A state message of a member: guests are refused, the host steers the room. */
    method State(who: Person, action: string, position: Option<real>)
      requires Valid() && Present(Now(), who)
      modifies this`room
      ensures Valid() && Now() == Next(old(Now()), Stated(who, action, position))
    {
      ghost var before := room.value;
      SteeringKeepsOk(before, who, action, position, arrivals, joined);
      if room.value.host != who {
        Send(who, Received(Refused));
        return;
      }
      var p := position.GetOr(room.value.position);
      if action == "play" || action == "pause" {
        room := Some(room.value.(isPlaying := action == "play"));
        room := Some(room.value.(position := p));
      } else if action == "seek" {
        room := Some(room.value.(position := p));
      }
      Send(who, Acted(action, position));
      Broadcast(Playback(action, p, who), Some(who));
    }

    /** A member's heartbeat moves its own marker and nothing else. */
    method Beat(who: Person, position: real)
      requires Valid() && Present(Now(), who)
      modifies this`room
      ensures Valid() && Now() == Next(old(Now()), Beaten(who, position))
    {
      MarkingKeepsOk(room.value, who, position, arrivals, joined);
      var members := room.value.members;
      var i := IndexOf(members, who);
      room := Some(room.value.(members := members[i := members[i].(position := position)]));
    }

    /** A sync request is answered with the current state. */
    method Sync(who: Person)
      requires Valid() && Present(Now(), who)
      modifies this`room
      ensures Valid() && Now() == Next(old(Now()), SyncAsked(who))
    {
      SyncKeepsOk(room.value, who, arrivals, joined);
      Send(who, Received(RoomState(room.value.host, room.value.position, room.value.isPlaying)));
    }

    /** Removes the member; a room without members goes, a room without its host gets the next one. */
    method RemoveMember(who: Person) returns (newHost: Option<Person>)
      modifies this`room
      ensures old(room).None? || !IsMember(old(room).value.members, who) ==> newHost.None? && room == old(room)
      ensures old(room).Some? && IsMember(old(room).value.members, who) ==>
        var before := old(room).value;
        var rest := RemoveAt(before.members, IndexOf(before.members, who));
        if rest == [] then newHost.None? && room.None?
        else
          && newHost == (if before.host == who then Some(rest[0].id) else None)
          && room == Some(before.(members := rest, host := newHost.GetOr(before.host)))
    {
      newHost := None;
      if room.None? || !IsMember(room.value.members, who) {
        return;
      }
      var rest := RemoveAt(room.value.members, IndexOf(room.value.members, who));
      room := Some(room.value.(members := rest));
      if rest == [] {
        room := None;
        return;
      }
      if room.value.host == who {
        newHost := Some(rest[0].id);
        room := Some(room.value.(host := rest[0].id));
      }
    }

    /** A socket closes: the member goes, the rest are told, and told the state again if the host changed. */
    method Leave(who: Person)
      requires Valid() && Present(Now(), who)
      modifies this`room
      ensures Valid() && Now() == Next(old(Now()), Gone(who))
    {
      ghost var before := room.value;
      var newHost := RemoveMember(who);
      Broadcast(MemberLeft(who), None);
      if newHost.Some? && room.Some? {
        Broadcast(RoomState(newHost.value, room.value.position, room.value.isPlaying), None);
      }
      if |before.members| > 1 {
        LeavingKeepsOk(before, who, arrivals, joined);
      }
    }
  }
}
