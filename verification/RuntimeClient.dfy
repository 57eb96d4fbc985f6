/** The client of the signed runtime: enrollment, continuation recovery, renewal and release over a
    pipe that may lose any response, one call at a time. */
module RuntimeClient {
  import opened Wrappers

  datatype Access = Full | RecoveryRead | ReleaseUncertain | Released

  /** What left the process. */
  datatype Message =
    | Challenge
    | Enroll(identity: string, conditional: Option<string>)
    | ContinuationStatus
    | Resume
    | Renew
    | Release(id: string)
    | ReleaseStatus(id: string)
    | Presence
    | Hosts
    | Ordinary

  /** A response after validation: a proper one, and the refusals the client tells apart. */
  datatype Reply = Proper(root: string) | NotEnrolled | Retained | Improper

  /** One exchange: nothing was sent, something failed before sending, or the request was sent and
      its response was lost or came back. */
  datatype Outcome = NotSent | FailedBefore | Lost | Answered(reply: Reply)

  /** The client's fields; what was sent; and how often a release took effect at the server. */
  datatype World = World(
    session: Option<string>, access: Access, continuation: Option<string>, initial: Option<string>,
    releaseId: Option<string>, enrollmentSent: bool, sent: seq<Message>, effects: nat)

  datatype Call =
    | Bind(identity: string, expected: Option<string>, credential: bool, challenge: Outcome, credentialFine: bool,
           enroll: Outcome)
    | RecoverContinuation(outcome: Outcome)
    | ResumeSession(challenge: Outcome, credentialFine: bool, outcome: Outcome)
    | OpenInbox(root: string, outcome: Outcome)
    | SettleEffect(outcome: Outcome)
    | RenewSession(outcome: Outcome)
    | ReleaseSession(id: string, recover: bool, acts: bool, outcome: Outcome)
    | RenewPresence(outcome: Outcome)
    | Ask(expiring: bool, renewal: Outcome, outcome: Outcome)
    | ReadHosts(current: bool, outcome: Outcome)

  type Stepped = (World, bool)

  const ACTOR_PREFIX := "app:agent-session:runtime:"

  predicate Hex(s: string) {
    forall k :: 0 <= k < |s| ==> '0' <= s[k] <= '9' || 'a' <= s[k] <= 'f'
  }

  predicate ExactActor(s: string) {
    |s| == |ACTOR_PREFIX| + 32 && s[..|ACTOR_PREFIX|] == ACTOR_PREFIX && Hex(s[|ACTOR_PREFIX|..])
  }

  predicate ReleaseIdentity(s: string) {
    |s| == 32 && Hex(s)
  }

  /** The actors of sessions: the prefix and 32 lower-case hexadecimal digits. */
  lemma ActorsAre(s: string)
    ensures ExactActor(s) <==> exists id :: |id| == 32 && Hex(id) && s == "app:agent-session:runtime:" + id
    ensures ReleaseIdentity(s) <==> |s| == 32 && forall k :: 0 <= k < 32 ==> s[k] in "0123456789abcdef"
  {
    if ExactActor(s) {
      assert s == "app:agent-session:runtime:" + s[|ACTOR_PREFIX|..];
    }
    if id :| |id| == 32 && Hex(id) && s == "app:agent-session:runtime:" + id {
      assert s[|ACTOR_PREFIX|..] == id && s[..|ACTOR_PREFIX|] == ACTOR_PREFIX;
    }
    forall c: char
      ensures '0' <= c <= '9' || 'a' <= c <= 'f' <==> c in "0123456789abcdef"
    {
      HexDigit(c);
    }
  }

  lemma HexDigit(c: char)
    ensures '0' <= c <= '9' || 'a' <= c <= 'f' <==> c in "0123456789abcdef"
  {
    var digits := "0123456789abcdef";
    assert forall k :: 0 <= k < 16 ==> '0' <= digits[k] <= '9' || 'a' <= digits[k] <= 'f';
    if '0' <= c <= '9' {
      assert digits[c as int - '0' as int] == c;
    } else if 'a' <= c <= 'f' {
      assert digits[10 + c as int - 'a' as int] == c;
    }
  }

  // ---------- the calls as functions ----------

  predicate WasSent(o: Outcome) {
    o.Lost? || o.Answered?
  }

  function Send(w: World, m: Message, o: Outcome): World {
    if WasSent(o) then w.(sent := w.sent + [m]) else w
  }

  predicate IsProper(o: Outcome) {
    o.Answered? && o.reply.Proper?
  }

  /** A proper response, and for a conditional enrollment one about the expected actor. */
  predicate Accepted(o: Outcome, expected: Option<string>) {
    IsProper(o) && (expected.Some? ==> o.reply.root == expected.value)
  }

  function Bound(w: World, root: string, access: Access): World {
    w.(session := Some(root), access := access)
  }

  function BindStep(w: World, identity: string, expected: Option<string>, credential: bool, challenge: Outcome,
                    credentialFine: bool, enroll: Outcome): Stepped
  {
    if w.session.Some? || w.continuation.Some? then (w, false)
    else
      var first := expected.None? && !credential;
      if first && w.initial.Some? && w.initial.value != identity then (w, false)
      else if expected.Some? && !ExactActor(expected.value) then (w, false)
      else
        var held := w.(initial := if first then Some(identity) else w.initial, continuation := expected);
        var asked := if credential then Send(held, Challenge, challenge) else held;
        if credential && (!IsProper(challenge) || !credentialFine) then (asked, false)
        else EnrollStep(asked, identity, expected, enroll)
  }

  /** The enrollment itself: known to be unsent only when nothing left the process. */
  function EnrollStep(w: World, identity: string, expected: Option<string>, enroll: Outcome): Stepped {
    var tried := Send(w.(enrollmentSent := !enroll.NotSent?), Enroll(identity, expected), enroll);
    if Accepted(enroll, expected) then (Bound(tried, enroll.reply.root, Full), true) else (tried, false)
  }

  function RecoverStep(w: World, o: Outcome): Stepped {
    if w.session.Some? || w.continuation.None? then (w, false)
    else
      var asked := Send(w, ContinuationStatus, o);
      if Accepted(o, w.continuation) then (Bound(asked, o.reply.root, Full), true) else (asked, false)
  }

  function ResumeStep(w: World, challenge: Outcome, credentialFine: bool, o: Outcome): Stepped {
    if w.session.Some? then (w, false)
    else
      var asked := Send(w, Challenge, challenge);
      if !IsProper(challenge) || !credentialFine then (asked, false)
      else
        var tried := Send(asked, Resume, o);
        if IsProper(o) then (Bound(tried, o.reply.root, RecoveryRead), true) else (tried, false)
  }

  function OpenInboxStep(w: World, root: string, o: Outcome): Stepped {
    if w.session.Some? || w.continuation.Some? then (w, false)
    else
      var tried := Send(w, Resume, o);
      if Accepted(o, Some(root)) then (Bound(tried, root, RecoveryRead), true) else (tried, false)
  }

  function SettleStep(w: World, o: Outcome): Stepped {
    if w.session.Some? || w.continuation.Some? then (w, false) else (Send(w, Resume, o), IsProper(o))
  }

  function RenewStep(w: World, o: Outcome): Stepped {
    if w.session.None? || w.access != Full then (w, false) else (Send(w, Renew, o), Accepted(o, w.session))
  }

  function ReleaseStep(w: World, id: string, recover: bool, acts: bool, o: Outcome): Stepped {
    if w.session.None? || !ReleaseIdentity(id) then (w, false)
    else if w.releaseId.Some? && w.releaseId.value != id then (w, false)
    else if recover && w.releaseId.None? then (w, false)
    else if w.releaseId.Some? && !recover then (w, false)
    else if !recover && w.access != Full then (w, false)
    else
      var held := w.(releaseId := Some(id), access := ReleaseUncertain);
      var tried := Send(held, if recover then ReleaseStatus(id) else Release(id), o);
      var done := if !recover && WasSent(o) && acts then tried.(effects := tried.effects + 1) else tried;
      if recover && o == Answered(Retained) then (done.(access := Full, releaseId := None), true)
      else if Accepted(o, w.session) then (done.(access := Released), true)
      else (done, false)
  }

  function PresenceStep(w: World, o: Outcome): Stepped {
    if w.session.None? then (w, false) else (Send(w, Presence, o), Accepted(o, w.session))
  }

  function AskStep(w: World, expiring: bool, renewal: Outcome, o: Outcome): Stepped {
    if w.access == ReleaseUncertain || w.access == Released then (w, false)
    else if w.session.Some? && w.access == Full && expiring then
      var (renewed, ok) := RenewStep(w, renewal);
      if ok then (Send(renewed, Ordinary, o), IsProper(o)) else (renewed, false)
    else (Send(w, Ordinary, o), IsProper(o))
  }

  function ReadHostsStep(w: World, current: bool, o: Outcome): Stepped {
    if w.session.None? || w.access != Full || !current then (w, false) else (Send(w, Hosts, o), IsProper(o))
  }

  function Step(w: World, c: Call): Stepped {
    match c
    case Bind(identity, expected, credential, challenge, fine, enroll) =>
      BindStep(w, identity, expected, credential, challenge, fine, enroll)
    case RecoverContinuation(o) => RecoverStep(w, o)
    case ResumeSession(challenge, fine, o) => ResumeStep(w, challenge, fine, o)
    case OpenInbox(root, o) => OpenInboxStep(w, root, o)
    case SettleEffect(o) => SettleStep(w, o)
    case RenewSession(o) => RenewStep(w, o)
    case ReleaseSession(id, recover, acts, o) => ReleaseStep(w, id, recover, acts, o)
    case RenewPresence(o) => PresenceStep(w, o)
    case Ask(expiring, renewal, o) => AskStep(w, expiring, renewal, o)
    case ReadHosts(current, o) => ReadHostsStep(w, current, o)
  }

  function Unbound(): World {
    World(None, Full, None, None, None, false, [], 0)
  }

  function Run(w: World, calls: seq<Call>): World {
    if calls == [] then w else Step(Run(w, calls[..|calls| - 1]), calls[|calls| - 1]).0
  }

  // ---------- the calls as they run ----------

  class Client {
    var session: Option<string>
    var access: Access
    var continuation: Option<string>
    var initial: Option<string>
    var releaseId: Option<string>
    var enrollmentSent: bool
    ghost var sent: seq<Message>
    ghost var effects: nat

    ghost function State(): World
      reads this
    {
      World(session, access, continuation, initial, releaseId, enrollmentSent, sent, effects)
    }

    constructor ()
      ensures State() == Unbound()
    {
      session, access, continuation, initial, releaseId, enrollmentSent := None, Full, None, None, None, false;
      sent, effects := [], 0;
    }

    method RequestOnce(m: Message, o: Outcome)
      modifies this`sent
      ensures State() == Send(old(State()), m, o)
    {
      if WasSent(o) {
        sent := sent + [m];
      }
    }

    /** The guarded request: refused while a release is uncertain or done, renewing first near expiry. */
    method Request(m: Message, expiring: bool, renewal: Outcome, o: Outcome) returns (ok: bool)
      modifies this`sent
      ensures m == Ordinary ==> (State(), ok) == AskStep(old(State()), expiring, renewal, o)
      ensures old(session) == None && old(access) == Full ==> State() == Send(old(State()), m, o) && ok == IsProper(o)
    {
      if access == ReleaseUncertain || access == Released {
        return false;
      }
      if session.Some? && access == Full && expiring {
        var renewed := RenewAgentSession(renewal);
        if !renewed {
          return false;
        }
      }
      RequestOnce(m, o);
      return IsProper(o);
    }

    method BindAgentSession(identity: string, expected: Option<string>, credential: bool, challenge: Outcome,
                            credentialFine: bool, enroll: Outcome) returns (ok: bool)
      requires session.None? ==> access == Full
      modifies this
      ensures (State(), ok) == BindStep(old(State()), identity, expected, credential, challenge, credentialFine, enroll)
    {
      hide ExactActor, EnrollStep;
      if session.Some? || continuation.Some? {
        return false;
      }
      if expected.None? && !credential {
        if initial.None? {
          initial := Some(identity);
        } else if initial.value != identity {
          return false;
        }
      }
      if expected.Some? {
        if !ExactActor(expected.value) {
          return false;
        }
        continuation := expected;
      }
      if credential {
        var challenged := Request(Challenge, false, NotSent, challenge);
        if !challenged || !credentialFine {
          return false;
        }
      }
      ok := EnrollNow(identity, expected, enroll);
    }

    method EnrollNow(identity: string, expected: Option<string>, enroll: Outcome) returns (ok: bool)
      requires session.None? && access == Full
      modifies this
      ensures (State(), ok) == EnrollStep(old(State()), identity, expected, enroll)
    {
      enrollmentSent := true;
      var answered := Request(Enroll(identity, expected), false, NotSent, enroll);
      if enroll.NotSent? {
        enrollmentSent := false;
        return false;
      }
      if !answered || !Accepted(enroll, expected) {
        return false;
      }
      session, access := Some(enroll.reply.root), Full;
      return true;
    }

    method RecoverAgentSessionContinuation(o: Outcome) returns (ok: bool)
      requires session.None? ==> access == Full
      modifies this
      ensures (State(), ok) == RecoverStep(old(State()), o)
    {
      if session.Some? || continuation.None? {
        return false;
      }
      var answered := Request(ContinuationStatus, false, NotSent, o);
      if !answered || !Accepted(o, continuation) {
        return false;
      }
      session, access := Some(o.reply.root), Full;
      return true;
    }

    method ResumeAgentSession(challenge: Outcome, credentialFine: bool, o: Outcome) returns (ok: bool)
      requires session.None? ==> access == Full
      modifies this
      ensures (State(), ok) == ResumeStep(old(State()), challenge, credentialFine, o)
    {
      if session.Some? {
        return false;
      }
      var challenged := Request(Challenge, false, NotSent, challenge);
      if !challenged || !credentialFine {
        return false;
      }
      var answered := Request(Resume, false, NotSent, o);
      if !answered {
        return false;
      }
      session, access := Some(o.reply.root), RecoveryRead;
      return true;
    }

    method OpenNativeInboxRead(root: string, o: Outcome) returns (ok: bool)
      requires session.None? ==> access == Full
      modifies this
      ensures (State(), ok) == OpenInboxStep(old(State()), root, o)
    {
      if session.Some? || continuation.Some? {
        return false;
      }
      var answered := Request(Resume, false, NotSent, o);
      if !answered || o.reply.root != root {
        return false;
      }
      session, access := Some(root), RecoveryRead;
      return true;
    }

    method SettleNativeEffect(o: Outcome) returns (ok: bool)
      requires session.None? ==> access == Full
      modifies this
      ensures (State(), ok) == SettleStep(old(State()), o)
    {
      if session.Some? || continuation.Some? {
        return false;
      }
      ok := Request(Resume, false, NotSent, o);
    }

    /** A renewal leaves the process only for a bound session with full access; nothing else changes,
        and it succeeds only with a proper answer about this very session. */
    method RenewAgentSession(o: Outcome) returns (ok: bool)
      modifies this`sent
      ensures (State(), ok) == RenewStep(old(State()), o)
      ensures sent == old(sent) + (if session.Some? && access == Full && WasSent(o) then [Renew] else [])
      ensures ok <==> session.Some? && access == Full && o == Answered(Proper(session.value))
    {
      if session.None? || access != Full {
        return false;
      }
      RequestOnce(Renew, o);
      return Accepted(o, session);
    }

    /** `acts` says whether the server lets a delivered release take effect. */
    method ReleaseAgentSession(id: string, recover: bool, acts: bool, o: Outcome) returns (ok: bool)
      modifies this
      ensures (State(), ok) == ReleaseStep(old(State()), id, recover, acts, o)
    {
      if session.None? || !ReleaseIdentity(id) {
        return false;
      }
      if releaseId.Some? && releaseId.value != id {
        return false;
      }
      if recover && releaseId.None? {
        return false;
      }
      if releaseId.Some? && !recover {
        return false;
      }
      if !recover && access != Full {
        return false;
      }
      releaseId := Some(id);
      access := ReleaseUncertain;
      if recover {
        RequestOnce(ReleaseStatus(id), o);
        if o == Answered(Retained) {
          access := Full;
          releaseId := None;
          return true;
        }
      } else {
        RequestOnce(Release(id), o);
        effects := if WasSent(o) && acts then effects + 1 else effects;
      }
      if !Accepted(o, session) {
        return false;
      }
      access := Released;
      return true;
    }

    method RenewRuntimePresence(o: Outcome) returns (ok: bool)
      modifies this`sent
      ensures (State(), ok) == PresenceStep(old(State()), o)
    {
      if session.None? {
        return false;
      }
      RequestOnce(Presence, o);
      return Accepted(o, session);
    }

    /** Hosts are asked for only by a bound session with full access that is still current; nothing
        else changes, and it succeeds only with a proper answer. */
    method ReadHostsState(current: bool, o: Outcome) returns (ok: bool)
      modifies this`sent
      ensures (State(), ok) == ReadHostsStep(old(State()), current, o)
      ensures sent == old(sent) + (if session.Some? && access == Full && current && WasSent(o) then [Hosts] else [])
      ensures ok <==> session.Some? && access == Full && current && o.Answered? && o.reply.Proper?
    {
      if session.None? || access != Full || !current {
        return false;
      }
      RequestOnce(Hosts, o);
      return IsProper(o);
    }
  }

  // ---------- enrollment ----------

  predicate Conditional(m: Message) {
    m.Enroll? && m.conditional.Some?
  }

  /** No enrollment follows a conditional one: so a conditional one was sent at most once. */
  predicate NothingFollows(sent: seq<Message>) {
    forall i, j :: 0 <= i < j < |sent| && Conditional(sent[i]) ==> !sent[j].Enroll?
  }

  /** What every reachable state keeps. */
  predicate Kept(w: World) {
    && (w.session.None? ==> w.access == Full)
    && (w.releaseId.Some? <==> w.access == ReleaseUncertain || w.access == Released)
    && NothingFollows(w.sent)
    && (w.continuation.None? ==> forall i :: 0 <= i < |w.sent| ==> !Conditional(w.sent[i]))
  }

  lemma SendKeeps(w: World, m: Message, o: Outcome)
    requires Kept(w) && !m.Enroll?
    ensures Kept(Send(w, m, o))
  {
  }

  lemma StepKeeps(w: World, c: Call)
    requires Kept(w)
    ensures Kept(Step(w, c).0)
  {
    hide ExactActor, ReleaseIdentity;
    match c
    case Bind(identity, expected, credential, challenge, fine, enroll) =>
      BindKeeps(w, identity, expected, credential, challenge, fine, enroll);
    case RecoverContinuation(o) => SendKeeps(w, ContinuationStatus, o);
    case ResumeSession(challenge, fine, o) =>
      SendKeeps(w, Challenge, challenge);
      SendKeeps(Send(w, Challenge, challenge), Resume, o);
    case OpenInbox(root, o) => SendKeeps(w, Resume, o);
    case SettleEffect(o) => SendKeeps(w, Resume, o);
    case RenewSession(o) => SendKeeps(w, Renew, o);
    case ReleaseSession(id, recover, acts, o) =>
      SendKeeps(w, if recover then ReleaseStatus(id) else Release(id), o);
    case RenewPresence(o) => SendKeeps(w, Presence, o);
    case Ask(expiring, renewal, o) =>
      SendKeeps(w, Renew, renewal);
      SendKeeps(Send(w, Renew, renewal), Ordinary, o);
      SendKeeps(w, Ordinary, o);
    case ReadHosts(current, o) => SendKeeps(w, Hosts, o);
  }

  lemma BindKeeps(w: World, identity: string, expected: Option<string>, credential: bool, challenge: Outcome,
                  credentialFine: bool, enroll: Outcome)
    requires Kept(w)
    ensures Kept(BindStep(w, identity, expected, credential, challenge, credentialFine, enroll).0)
  {
    hide ExactActor;
  }

  lemma {:induction false} RunKeeps(calls: seq<Call>)
    ensures Kept(Run(Unbound(), calls))
  {
    if calls != [] {
      RunKeeps(calls[..|calls| - 1]);
      StepKeeps(Run(Unbound(), calls[..|calls| - 1]), calls[|calls| - 1]);
    }
  }

  function Conditionals(sent: seq<Message>): nat {
    if sent == [] then 0 else Conditionals(sent[..|sent| - 1]) + if Conditional(sent[|sent| - 1]) then 1 else 0
  }

  lemma {:induction false} NothingFollowsCounts(sent: seq<Message>)
    requires NothingFollows(sent)
    ensures Conditionals(sent) <= 1
    ensures (forall i :: 0 <= i < |sent| ==> !Conditional(sent[i])) ==> Conditionals(sent) == 0
  {
    if sent != [] {
      NothingFollowsCounts(sent[..|sent| - 1]);
    }
  }

  /** In every run, whatever is lost, a conditional enrollment leaves the process at most once, and
      no enrollment of any kind leaves it afterwards. */
  lemma NoBlindEnrollment(calls: seq<Call>)
    ensures Conditionals(Run(Unbound(), calls).sent) <= 1 && NothingFollows(Run(Unbound(), calls).sent)
  {
    RunKeeps(calls);
    NothingFollowsCounts(Run(Unbound(), calls).sent);
  }

  /** The retained attempt: every conditional enrollment that left was for this actor, and a session with
      full access, or one being released, is this very actor. */
  predicate AttemptRetained(w: World) {
    && Kept(w)
    && (w.continuation.Some? ==> ExactActor(w.continuation.value))
    && (w.continuation.Some? && w.session.Some? && w.access != RecoveryRead ==> w.session == w.continuation)
    && forall i :: 0 <= i < |w.sent| && Conditional(w.sent[i]) ==> w.sent[i].conditional == w.continuation
  }

  lemma StepRetainsAttempt(w: World, c: Call)
    requires AttemptRetained(w)
    ensures AttemptRetained(Step(w, c).0)
  {
    hide ExactActor, ReleaseIdentity, NothingFollows, BindStep;
    StepKeeps(w, c);
    if c.Bind? {
      BindRetainsAttempt(w, c);
    }
  }

  lemma BindRetainsAttempt(w: World, c: Call)
    requires AttemptRetained(w) && c.Bind?
    ensures AttemptRetained(Step(w, c).0)
  {
    hide ExactActor, NothingFollows, Kept;
    StepKeeps(w, c);
    KeptMeans(w);
  }

  lemma KeptMeans(w: World)
    requires Kept(w)
    ensures w.continuation.None? ==> forall i :: 0 <= i < |w.sent| ==> !Conditional(w.sent[i])
  {
  }

  /** Whatever the pipe loses, no session stands in for the actor that an enrollment was retained for. */
  lemma {:induction false} RetainedActor(calls: seq<Call>)
    ensures AttemptRetained(Run(Unbound(), calls))
  {
    if calls != [] {
      RetainedActor(calls[..|calls| - 1]);
      StepRetainsAttempt(Run(Unbound(), calls[..|calls| - 1]), calls[|calls| - 1]);
    }
  }

  /** A first enrollment: for no expected actor and without a credential. */
  predicate First(c: Call) {
    c.Bind? && c.expected.None? && !c.credential
  }

  /** The first identity is written once, and a first enrollment leaves the process only with it. */
  lemma StepRetainsIdentity(w: World, c: Call)
    ensures var t := Step(w, c).0;
            && (w.initial.Some? ==> t.initial == w.initial)
            && (First(c) && t.sent != w.sent ==>
                t.initial == Some(c.identity) && t.sent == w.sent + [Enroll(c.identity, None)])
  {
    hide ExactActor, ReleaseIdentity;
  }

  lemma {:induction false} IdentityStays(w: World, calls: seq<Call>)
    requires w.initial.Some?
    ensures Run(w, calls).initial == w.initial
  {
    if calls != [] {
      IdentityStays(w, calls[..|calls| - 1]);
      StepRetainsIdentity(Run(w, calls[..|calls| - 1]), calls[|calls| - 1]);
    }
  }

  lemma {:induction false} RunInParts(w: World, a: seq<Call>, b: seq<Call>)
    ensures Run(w, a + b) == Run(Run(w, a), b)
  {
    if b == [] {
      assert a + b == a;
    } else {
      assert (a + b)[..|a + b| - 1] == a + b[..|b| - 1];
      RunInParts(w, a, b[..|b| - 1]);
    }
  }

  /** In every run all first enrollments that leave the process carry one identity. */
  lemma OneFirstIdentity(calls: seq<Call>, i: nat, j: nat)
    requires i < j < |calls| && First(calls[i]) && First(calls[j])
    requires Run(Unbound(), calls[..i + 1]).sent != Run(Unbound(), calls[..i]).sent
    requires Run(Unbound(), calls[..j + 1]).sent != Run(Unbound(), calls[..j]).sent
    ensures calls[i].identity == calls[j].identity
  {
    hide Step;
    assert calls[..i + 1][..i] == calls[..i] && calls[..j + 1][..j] == calls[..j];
    StepRetainsIdentity(Run(Unbound(), calls[..i]), calls[i]);
    StepRetainsIdentity(Run(Unbound(), calls[..j]), calls[j]);
    assert calls[..j + 1] == calls[..i + 1] + calls[i + 1..j + 1];
    RunInParts(Unbound(), calls[..i + 1], calls[i + 1..j + 1]);
    IdentityStays(Run(Unbound(), calls[..i + 1]), calls[i + 1..j + 1]);
  }

  // ---------- ordinary requests ----------

  /** An ordinary request leaves the process unless a release is uncertain or done.  Near its expiry a session
      with full access is renewed first, and without a proper answer about it the request stays. */
  lemma RequestRenewsFirst(w: World, expiring: bool, renewal: Outcome, o: Outcome)
    ensures var t := Step(w, Ask(expiring, renewal, o)).0;
            var renews := expiring && w.session.Some? && w.access == Full;
            var goes := w.access in {Full, RecoveryRead}
                        && (renews ==> renewal == Answered(Proper(w.session.value)));
            && t == w.(sent := t.sent)
            && t.sent == w.sent + (if renews && WasSent(renewal) then [Renew] else [])
                                + (if goes && WasSent(o) then [Ordinary] else [])
            && (Step(w, Ask(expiring, renewal, o)).1 <==> goes && o.Answered? && o.reply.Proper?)
  {
    assert w.sent + [] == w.sent && (w.sent + [Renew]) + [] == w.sent + [Renew];
  }

  // ---------- release ----------

  /** The server's side: a release is confirmed only if it takes effect with its delivery, and the
      status route says released exactly when one did. */
  predicate Truthful(w: World, c: Call) {
    c.ReleaseSession? && c.outcome.Answered? ==>
      && (!c.recover && c.outcome.reply.Proper? ==> c.acts)
      && (c.recover && c.outcome.reply.Proper? ==> w.effects > 0)
      && (c.recover && c.outcome.reply.Retained? ==> w.effects == 0)
  }

  predicate TruthfulRun(w: World, calls: seq<Call>) {
    forall k :: 0 <= k < |calls| ==> Truthful(Run(w, calls[..k]), calls[k])
  }

  /** At most one effect; none while the session is in use; one once it is known to be released. */
  predicate ReleasedOnce(w: World) {
    && Kept(w) && w.effects <= 1
    && (w.effects == 1 ==> w.access == ReleaseUncertain || w.access == Released)
    && (w.access == Released ==> w.effects == 1)
  }

  lemma StepReleasesOnce(w: World, c: Call)
    requires ReleasedOnce(w) && Truthful(w, c)
    ensures ReleasedOnce(Step(w, c).0)
  {
    hide NothingFollows, ExactActor, ReleaseIdentity;
    StepKeeps(w, c);
  }

  lemma {:induction false} ReleaseTakesEffectOnce(calls: seq<Call>)
    requires TruthfulRun(Unbound(), calls)
    ensures ReleasedOnce(Run(Unbound(), calls))
  {
    if calls != [] {
      var n := |calls| - 1;
      assert TruthfulRun(Unbound(), calls[..n]) by {
        forall k | 0 <= k < n
          ensures Truthful(Run(Unbound(), calls[..n][..k]), calls[..n][k])
        {
          assert calls[..n][..k] == calls[..k];
        }
      }
      ReleaseTakesEffectOnce(calls[..n]);
      StepReleasesOnce(Run(Unbound(), calls[..n]), calls[n]);
    }
  }

  /** Everything the guard covers: nothing is sent while a release is uncertain or done. */
  predicate Guarded(c: Call) {
    !c.RenewPresence? && !c.ReleaseSession?
  }

  predicate AfterRelease(w: World) {
    w.access == ReleaseUncertain || w.access == Released
  }

  /** Exactly two calls still send after a release attempt: the status read for the retained release,
      and the presence renewal, which has no guard. */
  lemma SendsAfterRelease(w: World, c: Call)
    requires Kept(w) && AfterRelease(w)
    ensures Step(w, c).0.sent != w.sent <==>
            || (c.RenewPresence? && WasSent(c.outcome))
            || (c.ReleaseSession? && c.recover && w.releaseId == Some(c.id) && ReleaseIdentity(c.id)
                && WasSent(c.outcome))
    ensures Guarded(c) ==> Step(w, c).0 == w
  {
    hide NothingFollows, ExactActor, ReleaseIdentity;
  }

  lemma {:induction false} GuardedCallsSendNothing(w: World, calls: seq<Call>)
    requires Kept(w) && AfterRelease(w) && forall k :: 0 <= k < |calls| ==> Guarded(calls[k])
    ensures Run(w, calls) == w
  {
    if calls != [] {
      GuardedCallsSendNothing(w, calls[..|calls| - 1]);
      SendsAfterRelease(w, calls[|calls| - 1]);
    }
  }

  /** The presence renewal does leave the process after a confirmed release. */
  lemma PresenceAfterRelease(w: World, o: Outcome)
    requires w.access == Released && w.session.Some? && WasSent(o)
    ensures Step(w, RenewPresence(o)).0.sent == w.sent + [Presence]
  {
  }

  /** Such a state is reached by an ordinary life: enroll, release, and both are confirmed. */
  lemma ReleasedIsReachable(identity: string, root: string, id: string)
    requires ReleaseIdentity(id)
    ensures var w := Run(Unbound(), [Bind(identity, None, false, NotSent, false, Answered(Proper(root))),
                                     ReleaseSession(id, false, true, Answered(Proper(root)))]);
            w.access == Released && w.session == Some(root) && w.effects == 1
  {
    hide ReleaseIdentity, ExactActor;
    var bind := Bind(identity, None, false, NotSent, false, Answered(Proper(root)));
    var release := ReleaseSession(id, false, true, Answered(Proper(root)));
    assert [bind, release][..1] == [bind] && [bind][..0] == [];
    assert Run(Unbound(), [bind]) == Step(Unbound(), bind).0;
  }

  /** If the status route may deny a release that took effect, a second one can take effect. */
  lemma TruthIsNeeded(w: World, id: string, other: string)
    requires w.session.Some? && w.access == Full && w.releaseId == None && ReleaseIdentity(id) && ReleaseIdentity(other)
    ensures var calls := [ReleaseSession(id, false, true, Lost), ReleaseSession(id, true, false, Answered(Retained)),
                          ReleaseSession(other, false, true, Lost)];
            Run(w, calls).effects == w.effects + 2 && !TruthfulRun(w, calls)
  {
    hide ReleaseIdentity;
    var a, b, c :=
      ReleaseSession(id, false, true, Lost), ReleaseSession(id, true, false, Answered(Retained)),
      ReleaseSession(other, false, true, Lost);
    assert [a, b, c][..2] == [a, b] && [a, b][..1] == [a] && [a][..0] == [] && [a, b, c][..1] == [a];
    assert Run(w, [a]) == Step(w, a).0;
    assert Run(w, [a, b]) == Step(Run(w, [a]), b).0;
    assert [a, b, c][1] == b && !Truthful(Run(w, [a, b, c][..1]), [a, b, c][1]);
  }
}
