/**
 Referral code allocation by any number of concurrent EnsureCode calls. Each event is one
 statement of a call: the first read, one conditional UPDATE under the unique index, or the
 re-read after an UPDATE that matched no row.
 */
module ReferralCodes {
  import opened Prelude

  type UserId = nat
  type CallId = nat
  newtype Byte = x: int | 0 <= x < 256

  /** The base32 alphabet of section 6 of RFC 4648. */
  const ALPHABET := "ABCDEFGHIJKLMNOPQRSTUVWXYZ234567"
  const CODE_LENGTH: nat := 8
  const MAX_ATTEMPTS: nat := 5

  predicate InAlphabet(c: char) {
    'A' <= c <= 'Z' || '2' <= c <= '7'
  }

  predicate WellFormed(code: string) {
    |code| == CODE_LENGTH && forall i :: 0 <= i < |code| ==> InAlphabet(code[i])
  }

  function CodeChar(b: Byte): char {
    ALPHABET[(b as int) % |ALPHABET|]
  }

  lemma {:induction false} CodeCharInAlphabet(b: Byte)
    ensures InAlphabet(CodeChar(b))
  {
    assert forall i :: 0 <= i < 26 ==> 'A' <= ALPHABET[i] <= 'Z';
    assert forall i :: 26 <= i < 32 ==> '2' <= ALPHABET[i] <= '7';
  }

  /** Values 0 to 25 are the letters in order, 26 to 31 the digits from 2. */
  lemma {:induction false} CodeCharExactly(b: Byte)
    ensures var v := (b as int) % 32;
            CodeChar(b) as int == if v < 26 then 'A' as int + v else '2' as int + (v - 26)
  {
    assert forall i :: 0 <= i < 26 ==> ALPHABET[i] as int == 'A' as int + i;
    assert forall i :: 26 <= i < 32 ==> ALPHABET[i] as int == '2' as int + (i - 26);
  }

  /** One random byte per character; 256 is a multiple of 32, so no character is favoured. */
  method ReferralCodeFromBytes(buf: seq<Byte>) returns (code: string)
    ensures |code| == |buf|
    ensures forall i :: 0 <= i < |buf| ==> code[i] == CodeChar(buf[i])
    ensures forall i :: 0 <= i < |buf| ==>
              var v := (buf[i] as int) % 32;
              code[i] as int == if v < 26 then 'A' as int + v else '2' as int + (v - 26)
    ensures |buf| == CODE_LENGTH ==> WellFormed(code)
  {
    code := "";
    for i := 0 to |buf|
      invariant |code| == i
      invariant forall j :: 0 <= j < i ==> code[j] == CodeChar(buf[j]) && InAlphabet(code[j])
      invariant forall j :: 0 <= j < i ==>
                  var v := (buf[j] as int) % 32;
                  code[j] as int == if v < 26 then 'A' as int + v else '2' as int + (v - 26)
    {
      CodeCharInAlphabet(buf[i]);
      CodeCharExactly(buf[i]);
      code := code + [CodeChar(buf[i])];
    }
  }

  /** `writes` counts the UPDATEs that stored a code. */
  datatype User = User(code: Option<string>, deleted: bool, writes: nat)

  datatype Call =
    | Trying(user: UserId, attempt: nat)
    | Rereading(user: UserId, attempt: nat)
    | Returned(user: UserId, code: string)
    | Refused(user: UserId)

  datatype State = State(users: map<UserId, User>, calls: map<CallId, Call>)

  datatype Event =
    | AddUser(user: UserId)
    | DeleteUser(user: UserId)
    | Begin(call: CallId, user: UserId)
    | Update(call: CallId, code: string)
    | Reread(call: CallId)
    | Fail(call: CallId)

  const INITIAL := State(map[], map[])

  predicate CodeTaken(s: State, user: UserId, code: string) {
    exists v :: v in s.users && v != user && s.users[v].code == Some(code)
  }

  function NextAttempt(user: UserId, attempt: nat): Call {
    if attempt + 1 < MAX_ATTEMPTS then Trying(user, attempt + 1) else Refused(user)
  }

  function SetCall(s: State, call: CallId, x: Call): State {
    s.(calls := s.calls[call := x])
  }

  function BeginCall(s: State, call: CallId, user: UserId): State {
    if user !in s.users || s.users[user].deleted then SetCall(s, call, Refused(user))
    else if s.users[user].code.Some? && s.users[user].code.value != ""
    then SetCall(s, call, Returned(user, s.users[user].code.value))
    else SetCall(s, call, Trying(user, 0))
  }

  /** UPDATE ... WHERE referral_code IS NULL AND deleted_at IS NULL, under the unique index. */
  function TryUpdate(s: State, call: CallId, user: UserId, attempt: nat, code: string): State
    requires user in s.users
  {
    var row := s.users[user];
    if row.code.Some? || row.deleted then SetCall(s, call, Rereading(user, attempt))
    else if CodeTaken(s, user, code) then SetCall(s, call, NextAttempt(user, attempt))
    else State(s.users[user := row.(code := Some(code), writes := row.writes + 1)],
               s.calls[call := Returned(user, code)])
  }

  function RereadCode(s: State, call: CallId, user: UserId, attempt: nat): State
    requires user in s.users
  {
    if s.users[user].code.Some? && s.users[user].code.value != ""
    then SetCall(s, call, Returned(user, s.users[user].code.value))
    else SetCall(s, call, NextAttempt(user, attempt))
  }

  function Step(s: State, ev: Event): State {
    match ev
    case AddUser(u) => if u in s.users then s else s.(users := s.users[u := User(None, false, 0)])
    case DeleteUser(u) => if u in s.users then s.(users := s.users[u := s.users[u].(deleted := true)]) else s
    case Begin(call, u) => if call in s.calls then s else BeginCall(s, call, u)
    case Update(call, code) =>
      if call in s.calls && s.calls[call].Trying? && s.calls[call].user in s.users && WellFormed(code)
      then TryUpdate(s, call, s.calls[call].user, s.calls[call].attempt, code) else s
    case Reread(call) =>
      if call in s.calls && s.calls[call].Rereading? && s.calls[call].user in s.users
      then RereadCode(s, call, s.calls[call].user, s.calls[call].attempt) else s
    case Fail(call) =>
      if call in s.calls && (s.calls[call].Trying? || s.calls[call].Rereading?)
      then SetCall(s, call, Refused(s.calls[call].user)) else s
  }

  function Run(s: State, events: seq<Event>): State
    decreases |events|
  {
    if events == [] then s else Run(Step(s, events[0]), events[1..])
  }

  predicate UserOk(u: User) {
    && (u.code.Some? ==> WellFormed(u.code.value))
    && u.writes == (if u.code.Some? then 1 else 0)
  }

  predicate CallOk(s: State, x: Call) {
    match x
    case Trying(u, attempt) => u in s.users && attempt < MAX_ATTEMPTS
    case Rereading(u, attempt) => u in s.users && attempt < MAX_ATTEMPTS
    case Returned(u, code) => u in s.users && s.users[u].code == Some(code)
    case Refused(_) => true
  }

  predicate CodesDistinct(s: State) {
    forall u, v | u in s.users && v in s.users && u != v ::
      s.users[u].code == None || s.users[u].code != s.users[v].code
  }

  ghost predicate Inv(s: State) {
    && (forall u :: u in s.users ==> UserOk(s.users[u]))
    && (forall c :: c in s.calls ==> CallOk(s, s.calls[c]))
    && CodesDistinct(s)
  }

  /** No user disappears and no stored code changes. */
  predicate CodesPersist(s: State, t: State) {
    forall u | u in s.users :: u in t.users && (s.users[u].code.Some? ==> t.users[u].code == s.users[u].code)
  }

  /** The unique index admits the one write that may happen. */
  lemma {:induction false} UpdateKeepsUsers(s: State, call: CallId, user: UserId, attempt: nat, code: string)
    requires Inv(s) && user in s.users && WellFormed(code)
    ensures var t := TryUpdate(s, call, user, attempt, code);
            CodesDistinct(t) && CodesPersist(s, t) && forall u :: u in t.users ==> UserOk(t.users[u])
  {
    var t := TryUpdate(s, call, user, attempt, code);
    forall u | u in t.users ensures UserOk(t.users[u]) {
      assert UserOk(s.users[u]);
    }
  }

  lemma {:induction false} StepKeepsUsers(s: State, ev: Event)
    requires Inv(s)
    ensures var t := Step(s, ev);
            CodesDistinct(t) && CodesPersist(s, t) && forall u :: u in t.users ==> UserOk(t.users[u])
  {
    var t := Step(s, ev);
    if ev.Update? {
      if t != s {
        UpdateKeepsUsers(s, ev.call, s.calls[ev.call].user, s.calls[ev.call].attempt, ev.code);
      }
    } else if ev.AddUser? || ev.DeleteUser? {
      assert forall u :: u in t.users && u in s.users ==> t.users[u].code == s.users[u].code;
    } else {
      assert t.users == s.users;
    }
  }

  /** What a call was promised outlasts any change that keeps the stored codes. */
  lemma {:induction false} CallStaysOk(s: State, t: State, x: Call)
    requires CallOk(s, x) && CodesPersist(s, t)
    ensures CallOk(t, x)
  {
  }

  lemma {:induction false} StepKeepsCalls(s: State, ev: Event)
    requires Inv(s) && CodesPersist(s, Step(s, ev))
    ensures var t := Step(s, ev); forall c :: c in t.calls ==> CallOk(t, t.calls[c])
  {
    var t := Step(s, ev);
    forall c | c in t.calls ensures CallOk(t, t.calls[c]) {
      if c in s.calls {
        CallStaysOk(s, t, s.calls[c]);
      }
    }
  }

  lemma {:induction false} StepKeepsInv(s: State, ev: Event)
    requires Inv(s)
    ensures Inv(Step(s, ev)) && CodesPersist(s, Step(s, ev))
  {
    StepKeepsUsers(s, ev);
    StepKeepsCalls(s, ev);
  }

  lemma {:induction false} RunKeepsInv(s: State, events: seq<Event>)
    requires Inv(s)
    ensures Inv(Run(s, events))
    ensures CodesPersist(s, Run(s, events))
    decreases |events|
  {
    if events != [] {
      StepKeepsInv(s, events[0]);
      RunKeepsInv(Step(s, events[0]), events[1..]);
    }
  }

  /** In every interleaving: a user's code is written at most once, codes are well formed, no
      two users share one, and every call that returned a code returned the stored one. */
  lemma {:induction false} CodesAreAllocatedOnce(events: seq<Event>)
    ensures var s := Run(INITIAL, events);
            && (forall u :: u in s.users ==>
                  s.users[u].writes <= 1 && (s.users[u].code.Some? ==> WellFormed(s.users[u].code.value)))
            && (forall u :: u in s.users && s.users[u].code.Some? ==>
                  && |s.users[u].code.value| == 8
                  && forall i :: 0 <= i < 8 ==>
                       'A' <= s.users[u].code.value[i] <= 'Z' || '2' <= s.users[u].code.value[i] <= '7')
            && CodesDistinct(s)
            && (forall c :: c in s.calls && s.calls[c].Returned? ==>
                  s.calls[c].user in s.users && s.users[s.calls[c].user].code == Some(s.calls[c].code))
  {
    RunKeepsInv(INITIAL, events);
    var s := Run(INITIAL, events);
    forall u | u in s.users
      ensures s.users[u].writes <= 1 && (s.users[u].code.Some? ==> WellFormed(s.users[u].code.value))
      ensures s.users[u].code.Some? ==>
                && |s.users[u].code.value| == 8
                && forall i :: 0 <= i < 8 ==>
                     'A' <= s.users[u].code.value[i] <= 'Z' || '2' <= s.users[u].code.value[i] <= '7'
    {
      assert UserOk(s.users[u]);
    }
    forall c | c in s.calls && s.calls[c].Returned?
      ensures s.calls[c].user in s.users && s.users[s.calls[c].user].code == Some(s.calls[c].code)
    {
      assert CallOk(s, s.calls[c]);
    }
  }

  /** Calls for one user agree however far apart in the run they return. */
  lemma {:induction false} CallsAgree(first: seq<Event>, later: seq<Event>, c1: CallId, c2: CallId)
    requires var s := Run(INITIAL, first); c1 in s.calls && s.calls[c1].Returned?
    requires var t := Run(Run(INITIAL, first), later);
             c2 in t.calls && t.calls[c2].Returned? && t.calls[c2].user == Run(INITIAL, first).calls[c1].user
    ensures Run(Run(INITIAL, first), later).calls[c2].code == Run(INITIAL, first).calls[c1].code
  {
    RunKeepsInv(INITIAL, first);
    var s := Run(INITIAL, first);
    RunKeepsInv(s, later);
    assert CallOk(s, s.calls[c1]);
    assert CallOk(Run(s, later), Run(s, later).calls[c2]);
  }

  // ----- What a call achieves -----

  predicate Open(x: Call) {
    x.Trying? || x.Rereading?
  }

  /** The code is stored on no other user. */
  predicate Unused(s: State, user: UserId, code: string) {
    forall v :: v in s.users && v != user ==> s.users[v].code != Some(code)
  }

  /** A call starts by answering: an error exactly for a user who is missing or deleted, the stored
      code of a user who has one; only then does it try to allocate. */
  lemma {:induction false} BeginExactly(s: State, c: CallId, u: UserId)
    requires c !in s.calls
    ensures var t := Step(s, Begin(c, u));
            && t.users == s.users && t.calls.Keys == s.calls.Keys + {c}
            && (forall d :: d in s.calls ==> t.calls[d] == s.calls[d])
            && (t.calls[c] == Refused(u) <==> u !in s.users || s.users[u].deleted)
            && (u in s.users && !s.users[u].deleted && s.users[u].code.Some? && s.users[u].code.value != "" ==>
                  t.calls[c] == Returned(u, s.users[u].code.value))
            && (u in s.users && !s.users[u].deleted && s.users[u].code == None ==> t.calls[c] == Trying(u, 0))
  {
  }

  /** An UPDATE stores its code, once, exactly on a live user without one when nobody else has that
      code, and its call returns it; a collision uses up one of five attempts; a user who has a
      code by now, or is deleted, is read again. */
  lemma {:induction false} UpdateExactly(s: State, c: CallId, u: UserId, attempt: nat, code: string)
    requires c in s.calls && s.calls[c] == Trying(u, attempt) && u in s.users && WellFormed(code)
    ensures var t := Step(s, Update(c, code));
            var free := s.users[u].code == None && !s.users[u].deleted;
            if free && Unused(s, u, code) then
              && t.users == s.users[u := User(Some(code), false, s.users[u].writes + 1)]
              && t.calls == s.calls[c := Returned(u, code)]
            else
              && t.users == s.users
              && t.calls == s.calls[c := if !free then Rereading(u, attempt)
                                         else if attempt < 4 then Trying(u, attempt + 1) else Refused(u)]
  {
    if v :| v in s.users && v != u && s.users[v].code == Some(code) {
      assert CodeTaken(s, u, code);
    }
  }

  /** A re-read returns the stored code, or uses up one of five attempts. */
  lemma {:induction false} RereadExactly(s: State, c: CallId, u: UserId, attempt: nat)
    requires Inv(s) && c in s.calls && s.calls[c] == Rereading(u, attempt)
    ensures var t := Step(s, Reread(c));
            && t.users == s.users
            && t.calls == s.calls[c := if s.users[u].code.Some? then Returned(u, s.users[u].code.value)
                                       else if attempt < 4 then Trying(u, attempt + 1) else Refused(u)]
  {
    assert CallOk(s, s.calls[c]) && UserOk(s.users[u]);
  }

  /** Exactly how a call comes to be refused: it begins for a user who is missing or deleted, a
      statement of it fails, or its fifth attempt collides or finds no code to return. */
  lemma {:induction false} RefusedExactly(s: State, ev: Event, c: CallId)
    requires Inv(s) && (c in s.calls ==> !s.calls[c].Refused?)
    ensures var t := Step(s, ev);
            c in t.calls && t.calls[c].Refused? <==>
            || (&& ev.Begin? && ev.call == c && c !in s.calls
                && (ev.user !in s.users || s.users[ev.user].deleted))
            || (ev == Fail(c) && c in s.calls && Open(s.calls[c]))
            || (&& ev.Update? && ev.call == c && c in s.calls && s.calls[c].Trying? && s.calls[c].attempt == 4
                && WellFormed(ev.code) && s.users[s.calls[c].user].code == None && !s.users[s.calls[c].user].deleted
                && !Unused(s, s.calls[c].user, ev.code))
            || (&& ev == Reread(c) && c in s.calls && s.calls[c].Rereading? && s.calls[c].attempt == 4
                && s.users[s.calls[c].user].code == None)
  {
    if c in s.calls {
      assert CallOk(s, s.calls[c]);
      if ev.Update? && ev.call == c && s.calls[c].Trying? && WellFormed(ev.code) {
        UpdateExactly(s, c, s.calls[c].user, s.calls[c].attempt, ev.code);
      } else if ev == Reread(c) && s.calls[c].Rereading? {
        RereadExactly(s, c, s.calls[c].user, s.calls[c].attempt);
      }
    } else if ev.Begin? && ev.call == c {
      BeginExactly(s, c, ev.user);
    }
  }

  /** A call by a live user without a code allocates the first free one it draws. */
  lemma {:induction false} CallAllocates(s: State, c: CallId, u: UserId, code: string)
    requires c !in s.calls && u in s.users && !s.users[u].deleted && s.users[u].code == None
    requires WellFormed(code) && Unused(s, u, code)
    ensures var t := Run(s, [Begin(c, u), Update(c, code)]);
            && t.users == s.users[u := User(Some(code), false, s.users[u].writes + 1)]
            && t.calls == s.calls[c := Returned(u, code)]
  {
    var s1 := Step(s, Begin(c, u));
    BeginExactly(s, c, u);
    UpdateExactly(s1, c, u, 0, code);
    var events := [Begin(c, u), Update(c, code)];
    assert events[1..] == [Update(c, code)] && events[1..][1..] == [];
    assert Run(s1, events[1..]) == Step(s1, events[1]);
    assert s1.calls[c := Returned(u, code)] == s.calls[c := Returned(u, code)];
  }

  /** Colliding draws cost one attempt each, and the fifth refuses the call. */
  lemma {:induction false} CollisionsRefuse(s: State, c: CallId, u: UserId, attempt: nat, codes: seq<string>)
    requires c in s.calls && s.calls[c] == Trying(u, attempt) && attempt < 5 && |codes| == 5 - attempt
    requires u in s.users && !s.users[u].deleted && s.users[u].code == None
    requires forall i :: 0 <= i < |codes| ==> WellFormed(codes[i]) && !Unused(s, u, codes[i])
    ensures Run(s, seq(|codes|, i requires 0 <= i < |codes| => Update(c, codes[i]))) ==
            s.(calls := s.calls[c := Refused(u)])
    decreases |codes|
  {
    var events := seq(|codes|, i requires 0 <= i < |codes| => Update(c, codes[i]));
    var rest := codes[1..];
    var t := Step(s, events[0]);
    UpdateExactly(s, c, u, attempt, codes[0]);
    assert events[1..] == seq(|rest|, i requires 0 <= i < |rest| => Update(c, rest[i]));
    if attempt < 4 {
      CollisionsRefuse(t, c, u, attempt + 1, rest);
      assert t.calls[c := Refused(u)] == s.calls[c := Refused(u)];
    } else {
      assert events[1..] == [];
    }
  }

  /** Users are added without a code, and deletion keeps it. */
  lemma {:induction false} UsersExactly(s: State, u: UserId)
    ensures var added, gone := Step(s, AddUser(u)), Step(s, DeleteUser(u));
            && added.calls == s.calls && gone.calls == s.calls
            && added.users == (if u in s.users then s.users else s.users[u := User(None, false, 0)])
            && gone.users == (if u in s.users then s.users[u := s.users[u].(deleted := true)] else s.users)
  {
  }
}
