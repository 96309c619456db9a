/**
 Where a login password comes from and which passwords may be remembered. The
 handler tries a last, preset, shared, saved, address-book and default password
 in turn; a shared one must never end up in the saved peer configuration or in
 the personal address book.

 The digest is an arbitrary function. An `Origin` says where bytes really came
 from and follows them through the disk, the address book and the connection
 token; `source` is what the handler itself remembers about its password.
 */
module LoginProvenance {
  import opened Strings

  type Bytes = seq<int>
  type Digest = (string, string) -> Bytes

  datatype PasswordSource = PersonalAb(bytes: Bytes) | SharedAb(text: string) | Undefined

  datatype Origin = FromTyped | FromPreset | FromDisk | FromPersonal | FromShared(text: string)

  /** Bytes with their true origin. */
  datatype Secret = Secret(bytes: Bytes, origin: Origin)

  /** What a connection token carries: a password and what was remembered about it. */
  datatype Token = Token(secret: Secret, source: PasswordSource)

  datatype Login = Login(
    password: Secret,
    source: PasswordSource,
    salt: string, greeted: bool,            // the peer's hash message, once it arrived
    remember: bool,
    saved: Secret,                          // the configuration as the handler last loaded it
    shared: Option<string>,
    switchUuid: bool)                       // a request to switch sides waits for the first hash message

  /** The handler in use, and what outlives it. */
  datatype Client = Client(
    login: Login,
    token: Option<Token>,
    disk: Secret,                           // the stored peer configuration
    book: Option<Secret>,                   // this peer's entry in the personal address book
    writes: seq<Secret>,                    // everything peer info ever stored
    synced: seq<Secret>)                    // everything ever pushed to the personal address book

  datatype ErrorKind = PasswordEmpty | PasswordWrong | OtherError

  datatype Op =
    | HashMessage(salt: string, trusted: bool, preset: string, signedIn: bool, fallback: string)
    | UiLogin(text: string, remember: bool)
    | LoginError(kind: ErrorKind)
    | PeerInfo
    | RefreshConfig                         // an option is stored: the configuration is loaded again
    | TakeToken
    | Initialize(shared: Option<string>, switchUuid: bool, useToken: bool) // a new handler for the peer
    | DiskEdited(bytes: Bytes)              // somebody else stores or removes a password
    | BookEdited(entry: Option<Bytes>)
    | BookSynced(k: nat)                    // a pushed password arrives in the address book

  // ---------------------------------------------------------------- sources

  predicate IsPersonalAb(source: PasswordSource, password: Bytes) {
    password != [] && source.PersonalAb? && source.bytes == password
  }

  predicate IsSharedAb(digest: Digest, source: PasswordSource, password: Bytes, salt: string) {
    password != [] && source.SharedAb? && digest(source.text, salt) == password
  }

  // ------------------------------------------------------------- operations

  function TryPreset(digest: Digest, l: Login, preset: string): Login {
    if l.password.bytes == [] && preset != ""
    then l.(password := Secret(digest(preset, l.salt), FromPreset), source := Undefined)
    else l
  }

  function TryShared(digest: Digest, l: Login): Login {
    var t := l.(shared := None);
    if l.shared.Some? && l.shared.value != ""
    then t.(password := Secret(digest(l.shared.value, l.salt), FromShared(l.shared.value)),
            source := SharedAb(l.shared.value))
    else t
  }

  function TrySaved(l: Login): Login {
    if l.password.bytes == [] && l.saved.bytes != []
    then l.(password := l.saved, source := Undefined)
    else l
  }

  function TryPersonal(l: Login, entry: Option<Secret>): Login {
    if l.password.bytes == [] && entry.Some? && entry.value.bytes != []
    then l.(password := entry.value, source := PersonalAb(entry.value.bytes))
    else l
  }

  function TryFallback(digest: Digest, l: Login, fallback: string): Login {
    if l.password.bytes == [] && fallback != ""
    then l.(password := Secret(digest(fallback, l.salt), FromShared(fallback)), source := SharedAb(fallback))
    else l
  }

  function FirstChoices(digest: Digest, l: Login, preset: string): Login {
    TrySaved(TryShared(digest, TryPreset(digest, l, preset)))
  }

  function LastChoices(digest: Digest, l: Login, entry: Option<Secret>, fallback: string): Login {
    TryFallback(digest, TryPersonal(l, entry), fallback)
  }

  /** The waiting switch request is taken by the first hash message and used up, trusted or not. */
  function OnHash(digest: Digest, l: Login, salt: string, trusted: bool, preset: string, entry: Option<Secret>,
                  fallback: string): Login
  {
    var g := l.(salt := salt, greeted := true, switchUuid := false);
    if l.switchUuid && trusted then g.(source := Undefined)
    else LastChoices(digest, FirstChoices(digest, g, preset), entry, fallback)
  }

  function OnUiLogin(digest: Digest, l: Login, text: string, remember: bool): Login {
    if text == "" then TrySaved(l)
    else l.(password := Secret(digest(text, l.salt), FromTyped), source := Undefined, remember := remember)
  }

  function OnLoginError(l: Login, kind: ErrorKind): Login {
    if kind.OtherError? then l else l.(password := Secret([], l.password.origin))
  }

  function OnInitialize(disk: Secret, token: Option<Token>, shared: Option<string>, switchUuid: bool): Login {
    Login(if token.Some? then token.value.secret else Secret([], FromDisk),
          if token.Some? then token.value.source else Undefined,
          "", false, disk.bytes != [], disk, shared, switchUuid)
  }

  /** Whether peer info stores the password in use over the one on disk. */
  predicate Replaces(digest: Digest, l: Login, disk: Secret) {
    var p := l.password.bytes;
    if l.remember then p != [] && p != disk.bytes && !IsSharedAb(digest, l.source, p, l.salt)
    else IsPersonalAb(l.source, p)
  }

  /** What the peer configuration holds after peer info. */
  function Remembered(digest: Digest, l: Login, disk: Secret): Secret {
    if Replaces(digest, l, disk) then l.password
    else if l.remember then disk
    else Secret([], FromDisk)
  }

  /** Whether peer info pushes what it stored to the personal address book. */
  predicate Pushes(digest: Digest, l: Login, disk: Secret) {
    && Remembered(digest, l, disk).bytes != []
    && !IsSharedAb(digest, l.source, l.password.bytes, l.salt)
    && !IsPersonalAb(l.source, l.password.bytes)
  }

  function OnPeerInfo(digest: Digest, c: Client): Client {
    var kept := Remembered(digest, c.login, c.disk);
    c.(login := c.login.(saved := kept), disk := kept, writes := c.writes + [kept],
       synced := if Pushes(digest, c.login, c.disk) then c.synced + [kept] else c.synced)
  }

  function Apply(digest: Digest, c: Client, op: Op): Client {
    match op
    case HashMessage(salt, trusted, preset, signedIn, fallback) =>
      c.(login := OnHash(digest, c.login, salt, trusted, preset, if signedIn then c.book else None, fallback))
    case UiLogin(text, remember) => c.(login := OnUiLogin(digest, c.login, text, remember))
    case LoginError(kind) => c.(login := OnLoginError(c.login, kind))
    case PeerInfo => OnPeerInfo(digest, c)
    case RefreshConfig => c.(login := c.login.(saved := c.disk))
    case TakeToken =>
      c.(token := if c.login.password.bytes == [] then None else Some(Token(c.login.password, c.login.source)))
    case Initialize(shared, switchUuid, useToken) =>
      c.(login := OnInitialize(c.disk, if useToken then c.token else None, shared, switchUuid))
    case DiskEdited(bytes) => c.(disk := Secret(bytes, FromDisk))
    case BookEdited(entry) => c.(book := if entry.Some? then Some(Secret(entry.value, FromPersonal)) else None)
    case BookSynced(k) => if k < |c.synced| then c.(book := Some(c.synced[k])) else c
  }

  function Run(digest: Digest, c: Client, ops: seq<Op>): Client {
    if ops == [] then c else Apply(digest, Run(digest, c, ops[..|ops| - 1]), ops[|ops| - 1])
  }

  lemma RunSnoc(digest: Digest, c: Client, ops: seq<Op>, op: Op)
    ensures Run(digest, c, ops + [op]) == Apply(digest, Run(digest, c, ops), op)
  {
    assert (ops + [op])[..|ops|] == ops;
  }

  // ------------------------------------------------- which password is used

  /** Digests are never empty. */
  ghost predicate Proper(digest: Digest) {
    forall text, salt :: digest(text, salt) != []
  }

  /** The password and the recorded source of a handler. */
  predicate Uses(l: Login, password: Secret, source: PasswordSource) {
    l.password == password && l.source == source
  }

  /** With no shared card and no last password: the preset, then the saved one. */
  lemma PresetOrSaved(digest: Digest, l: Login, preset: string)
    requires Proper(digest) && l.password.bytes == [] && (l.shared.None? || l.shared.value == "")
    ensures var t := FirstChoices(digest, l, preset);
            && t == l.(password := t.password, source := t.source, shared := None)
            && if preset != "" then Uses(t, Secret(digest(preset, l.salt), FromPreset), Undefined)
               else if l.saved.bytes != [] then Uses(t, l.saved, Undefined)
               else Uses(t, l.password, l.source)
  {
    var a := TryPreset(digest, l, preset);
    var b := TryShared(digest, a);
    assert b == a.(shared := None);
  }

  /** The password a login falls back to when no shared card and no last password is there. */
  lemma FallbackChoice(digest: Digest, l: Login, preset: string, entry: Option<Secret>, fallback: string)
    requires Proper(digest) && l.password.bytes == [] && (l.shared.None? || l.shared.value == "")
    ensures var t := LastChoices(digest, FirstChoices(digest, l, preset), entry, fallback);
            && t == l.(password := t.password, source := t.source, shared := None)
            && if preset != "" then Uses(t, Secret(digest(preset, l.salt), FromPreset), Undefined)
               else if l.saved.bytes != [] then Uses(t, l.saved, Undefined)
               else if entry.Some? && entry.value.bytes != [] then
                 Uses(t, entry.value, PersonalAb(entry.value.bytes))
               else if fallback != "" then
                 Uses(t, Secret(digest(fallback, l.salt), FromShared(fallback)), SharedAb(fallback))
               else Uses(t, l.password, l.source)
  {
    PresetOrSaved(digest, l, preset);
    var t := FirstChoices(digest, l, preset);
    assert preset != "" || l.saved.bytes != [] ==> t.password.bytes != [];
  }

  /** A shared card goes before everything, and the last password before everything but the card. */
  lemma FirstChoice(digest: Digest, l: Login, preset: string, entry: Option<Secret>, fallback: string)
    requires Proper(digest) && (l.password.bytes != [] || (l.shared.Some? && l.shared.value != ""))
    ensures var t := LastChoices(digest, FirstChoices(digest, l, preset), entry, fallback);
            && t == l.(password := t.password, source := t.source, shared := None)
            && if l.shared.Some? && l.shared.value != "" then
                 Uses(t, Secret(digest(l.shared.value, l.salt), FromShared(l.shared.value)), SharedAb(l.shared.value))
               else Uses(t, l.password, l.source)
  {
  }

  /**
   What a hash message makes the handler use. A trusted switch request leaves
   the password and forgets its source. Otherwise a shared card goes first, then
   the last password, the preset, the saved one, the address-book entry of a
   signed-in user, and the built-in default.
   */
  lemma HashChoosesPassword(digest: Digest, c: Client, hash: Op)
    requires Proper(digest) && hash.HashMessage?
    ensures var t := Apply(digest, c, hash);
            var (was, now) := (c.login, t.login);
            && now.salt == hash.salt && now.greeted && !now.switchUuid
            && now.remember == was.remember && now.saved == was.saved
            && t == c.(login := now)
            && if was.switchUuid && hash.trusted then
                 Uses(now, was.password, Undefined) && now.shared == was.shared
               else
                 && now.shared == None
                 && if was.shared.Some? && was.shared.value != "" then
                      Uses(now, Secret(digest(was.shared.value, hash.salt), FromShared(was.shared.value)),
                           SharedAb(was.shared.value))
                    else if was.password.bytes != [] then Uses(now, was.password, was.source)
                    else if hash.preset != "" then
                      Uses(now, Secret(digest(hash.preset, hash.salt), FromPreset), Undefined)
                    else if was.saved.bytes != [] then Uses(now, was.saved, Undefined)
                    else if hash.signedIn && c.book.Some? && c.book.value.bytes != [] then
                      Uses(now, c.book.value, PersonalAb(c.book.value.bytes))
                    else if hash.fallback != "" then
                      Uses(now, Secret(digest(hash.fallback, hash.salt), FromShared(hash.fallback)),
                           SharedAb(hash.fallback))
                    else Uses(now, was.password, was.source)
  {
    var g := c.login.(salt := hash.salt, greeted := true, switchUuid := false);
    var entry := if hash.signedIn then c.book else None;
    if g.password.bytes != [] || (g.shared.Some? && g.shared.value != "") {
      FirstChoice(digest, g, hash.preset, entry, hash.fallback);
    } else {
      FallbackChoice(digest, g, hash.preset, entry, hash.fallback);
    }
  }

  /** A typed password is used as such; without one the last stays, or the saved one comes in. */
  lemma UiLoginChoosesPassword(digest: Digest, c: Client, text: string, remember: bool)
    ensures var t := Apply(digest, c, UiLogin(text, remember));
            var (was, now) := (c.login, t.login);
            && t == c.(login := now)
            && now == was.(password := now.password, source := now.source, remember := now.remember)
            && if text != "" then
                 Uses(now, Secret(digest(text, was.salt), FromTyped), Undefined) && now.remember == remember
               else
                 && now.remember == was.remember
                 && if was.password.bytes == [] && was.saved.bytes != [] then Uses(now, was.saved, Undefined)
                    else Uses(now, was.password, was.source)
  {
  }

  /** An empty or wrong password is thrown away; any other error changes nothing. */
  lemma LoginErrorForgets(digest: Digest, c: Client, kind: ErrorKind)
    ensures var t := Apply(digest, c, LoginError(kind));
            if kind == PasswordEmpty || kind == PasswordWrong
            then t.login.password.bytes == [] && t == c.(login := c.login.(password := t.login.password))
            else t == c
  {
  }

  /**
   What peer info leaves on disk and pushes, by where the handler says the
   password came from. A typed, preset or saved one is kept and pushed if it is
   to be remembered and wiped otherwise; the address-book one is kept and never
   pushed; a recognised shared one changes nothing and is never pushed.
   */
  lemma PeerInfoKeeps(digest: Digest, c: Client)
    ensures var t := Apply(digest, c, PeerInfo);
            var (l, bytes) := (c.login, c.login.password.bytes);
            && t.login == l.(saved := t.disk) && t.writes == c.writes + [t.disk]
            && t.token == c.token && t.book == c.book
            && (bytes != [] && l.source == Undefined ==>
                  if l.remember then t.disk.bytes == bytes && t.synced == c.synced + [t.disk]
                  else t.disk.bytes == [] && t.synced == c.synced)
            && (bytes != [] && l.source == PersonalAb(bytes) ==> t.disk.bytes == bytes && t.synced == c.synced)
            && (bytes != [] && l.source.SharedAb? && digest(l.source.text, l.salt) == bytes ==>
                  && t.synced == c.synced
                  && if l.remember then t.disk == c.disk else t.disk.bytes == [])
            && (bytes == [] ==>
                  if l.remember
                  then t.disk == c.disk && t.synced == (if c.disk.bytes != [] then c.synced + [c.disk] else c.synced)
                  else t.disk.bytes == [] && t.synced == c.synced)
  {
  }

  /** A typed password that is to be remembered is what the next handler starts from, and one that is not is gone. */
  lemma TypedPasswordIsRemembered(digest: Digest, c: Client, text: string, remember: bool, card: Option<string>)
    requires Proper(digest) && text != ""
    ensures var t := Run(digest, c, [UiLogin(text, remember), PeerInfo, Initialize(card, false, false)]);
            && t.login.saved.bytes == (if remember then digest(text, c.login.salt) else [])
            && t.login.remember == remember && t.login.password.bytes == [] && t.login.shared == card
  {
    var (a, b, d) := (UiLogin(text, remember), PeerInfo, Initialize(card, false, false));
    RunSnoc(digest, c, [], a);
    RunSnoc(digest, c, [a], b);
    RunSnoc(digest, c, [a, b], d);
    assert [] + [a] == [a] && [a] + [b] == [a, b] && [a, b] + [d] == [a, b, d];
    UiLoginChoosesPassword(digest, c, text, remember);
    PeerInfoKeeps(digest, Run(digest, c, [a]));
  }

  /** A token brings password and source to the next handler; without one it starts with neither. */
  lemma TokenBringsPassword(digest: Digest, c: Client, card: Option<string>, uuid: bool)
    ensures var t := Apply(digest, Apply(digest, c, TakeToken), Initialize(card, uuid, true));
            && t.login.salt == "" && !t.login.greeted && t.login.shared == card && t.login.switchUuid == uuid
            && t.login.saved == c.disk == t.disk && t.login.remember == (c.disk.bytes != [])
            && if c.login.password.bytes != [] then Uses(t.login, c.login.password, c.login.source)
               else t.login.password.bytes == [] && t.login.source == Undefined
  {
  }

  // ------------------------------------------------------------- invariants

  predicate Safe(s: Secret) {
    s.bytes != [] ==> !s.origin.FromShared?
  }

  predicate SafeEntry(entry: Option<Secret>) {
    entry.Some? ==> Safe(entry.value)
  }

  predicate AllSafe(s: seq<Secret>) {
    forall i :: 0 <= i < |s| ==> Safe(s[i])
  }

  /** Nothing shared was ever stored or pushed. */
  predicate NothingKept(c: Client) {
    AllSafe(c.writes) && AllSafe(c.synced)
  }

  /** A handler just initialised for a peer, with nothing shared on disk or in the address book. */
  predicate Initial(c: Client) {
    && c.login.password.bytes == [] && !c.login.greeted && c.token.None? && c.writes == [] && c.synced == []
    && c.login.saved == c.disk && c.login.remember == (c.disk.bytes != [])
    && Safe(c.disk) && SafeEntry(c.book)
  }

  predicate StoresSafe(c: Client) {
    Safe(c.disk) && SafeEntry(c.book) && NothingKept(c)
  }

  // ------------------------------------- exactly when a shared password is kept

  /** What a remembered source still says about a password, with any salts and any switching. */
  predicate RecordedAs(s: Secret, source: PasswordSource) {
    s.bytes != [] ==>
      && (source.SharedAb? ==> s.origin == FromShared(source.text))
      && (source.PersonalAb? ==> s.bytes == source.bytes)
  }

  predicate Recorded(c: Client) {
    && RecordedAs(c.login.password, c.login.source)
    && (c.token.Some? ==> RecordedAs(c.token.value.secret, c.token.value.source))
  }

  lemma HashKeepsRecorded(digest: Digest, l: Login, salt: string, trusted: bool, preset: string,
                          entry: Option<Secret>, fallback: string)
    requires RecordedAs(l.password, l.source)
    ensures var t := OnHash(digest, l, salt, trusted, preset, entry, fallback); RecordedAs(t.password, t.source)
  {
    var g := l.(salt := salt, greeted := true, switchUuid := false);
    var a := TryShared(digest, TryPreset(digest, g, preset));
    assert RecordedAs(a.password, a.source);
  }

  lemma ApplyKeepsRecorded(digest: Digest, c: Client, op: Op)
    requires Recorded(c)
    ensures Recorded(Apply(digest, c, op))
  {
    if op.HashMessage? {
      var entry := if op.signedIn then c.book else None;
      HashKeepsRecorded(digest, c.login, op.salt, op.trusted, op.preset, entry, op.fallback);
    }
  }

  lemma {:induction false} RunKeepsRecorded(digest: Digest, c: Client, ops: seq<Op>)
    requires Recorded(c)
    ensures Recorded(Run(digest, c, ops))
  {
    if ops != [] {
      var n := |ops| - 1;
      RunKeepsRecorded(digest, c, ops[..n]);
      ApplyKeepsRecorded(digest, Run(digest, c, ops[..n]), ops[n]);
    }
  }

  /**
   The password in use was made from a shared text, is to be remembered, is not
   the one on disk, and the handler cannot tell: its source is no longer that
   text, or the salt now in force does not reproduce the password from it.
   */
  predicate Unrecognised(digest: Digest, l: Login, disk: Secret) {
    && l.remember && l.password.bytes != [] && l.password.bytes != disk.bytes && l.password.origin.FromShared?
    && (!l.source.SharedAb? || digest(l.password.origin.text, l.salt) != l.password.bytes)
  }

  /**
   After any run at all, also one that already stored something shared: peer
   info stores a password of shared origin exactly when the one in use is
   unrecognised, or the disk holds one and it stays, or it comes back from the
   address book. It pushes a shared one exactly when it stores one, unless the
   password in use is the address-book entry or a recognised shared one.
   */
  lemma SharedStoredIff(digest: Digest, c: Client, ops: seq<Op>)
    requires Initial(c)
    ensures var t := Run(digest, c, ops);
            var l := t.login;
            var stored := !Safe(Apply(digest, t, PeerInfo).disk);
            && (stored <==>
                  || Unrecognised(digest, l, t.disk)
                  || (l.remember && !Safe(t.disk) && !Replaces(digest, l, t.disk))
                  || (!l.remember && IsPersonalAb(l.source, l.password.bytes) && l.password.origin.FromShared?))
            && (!AllSafe(Apply(digest, t, PeerInfo).synced[|t.synced|..]) <==>
                  && stored && !IsPersonalAb(l.source, l.password.bytes)
                  && !IsSharedAb(digest, l.source, l.password.bytes, l.salt))
  {
    RunKeepsRecorded(digest, c, ops);
    var t := Run(digest, c, ops);
    var kept := Remembered(digest, t.login, t.disk);
    var more := Apply(digest, t, PeerInfo).synced[|t.synced|..];
    assert more == if Pushes(digest, t.login, t.disk) then [kept] else [];
    if Pushes(digest, t.login, t.disk) { assert more[0] == kept; }
  }

  /** While nothing unrecognised met peer info, an address-book password is no shared one. */
  predicate TidyAs(s: Secret, source: PasswordSource) {
    RecordedAs(s, source) && (source.PersonalAb? ==> Safe(s))
  }

  predicate TidyLogin(l: Login) {
    TidyAs(l.password, l.source) && Safe(l.saved)
  }

  predicate Tidy(c: Client) {
    StoresSafe(c) && TidyLogin(c.login) && (c.token.Some? ==> TidyAs(c.token.value.secret, c.token.value.source))
  }

  lemma HashKeepsTidy(digest: Digest, l: Login, salt: string, trusted: bool, preset: string, entry: Option<Secret>,
                      fallback: string)
    requires TidyLogin(l) && SafeEntry(entry)
    ensures TidyLogin(OnHash(digest, l, salt, trusted, preset, entry, fallback))
  {
    var g := l.(salt := salt, greeted := true, switchUuid := false);
    var a := TryShared(digest, TryPreset(digest, g, preset));
    assert TidyLogin(a);
    assert TidyLogin(TryPersonal(TrySaved(a), entry));
  }

  lemma PeerInfoKeepsTidy(digest: Digest, c: Client)
    requires Tidy(c) && !Unrecognised(digest, c.login, c.disk)
    ensures Tidy(OnPeerInfo(digest, c))
  {
    assert Safe(Remembered(digest, c.login, c.disk));
  }

  lemma StepKeepsTidy(digest: Digest, c: Client, op: Op)
    requires Tidy(c) && !(op.PeerInfo? && Unrecognised(digest, c.login, c.disk))
    ensures Tidy(Apply(digest, c, op))
  {
    if op.HashMessage? {
      var entry := if op.signedIn then c.book else None;
      HashKeepsTidy(digest, c.login, op.salt, op.trusted, op.preset, entry, op.fallback);
    } else if op.PeerInfo? {
      PeerInfoKeepsTidy(digest, c);
    }
  }

  /** Some peer info of the run met an unrecognised shared password. */
  ghost predicate EverUnrecognised(digest: Digest, c: Client, ops: seq<Op>) {
    exists k :: 0 <= k < |ops| && UnrecognisedAt(digest, Run(digest, c, ops[..k]), ops[k])
  }

  predicate UnrecognisedAt(digest: Digest, c: Client, op: Op) {
    op.PeerInfo? && Unrecognised(digest, c.login, c.disk)
  }

  lemma {:induction false} TidyUnlessUnrecognised(digest: Digest, c: Client, ops: seq<Op>)
    requires Initial(c) && !EverUnrecognised(digest, c, ops)
    ensures Tidy(Run(digest, c, ops))
  {
    if ops != [] {
      var n := |ops| - 1;
      var shorter := ops[..n];
      assert forall k :: 0 <= k < n ==> shorter[..k] == ops[..k] && shorter[k] == ops[k];
      TidyUnlessUnrecognised(digest, c, shorter);
      assert !UnrecognisedAt(digest, Run(digest, c, ops[..n]), ops[n]);
      StepKeepsTidy(digest, Run(digest, c, shorter), ops[n]);
    }
  }

  lemma ApplyKeepsWrites(digest: Digest, c: Client, op: Op)
    ensures c.writes <= Apply(digest, c, op).writes
  {
  }

  lemma {:induction false} WritesStay(digest: Digest, c: Client, ops: seq<Op>, k: nat)
    requires k <= |ops|
    ensures Run(digest, c, ops[..k]).writes <= Run(digest, c, ops).writes
  {
    if k == |ops| {
      assert ops[..k] == ops;
    } else {
      var n := |ops| - 1;
      assert ops[..n][..k] == ops[..k];
      WritesStay(digest, c, ops[..n], k);
      ApplyKeepsWrites(digest, Run(digest, c, ops[..n]), ops[n]);
    }
  }

  lemma UnrecognisedIsStored(digest: Digest, c: Client, ops: seq<Op>)
    requires Initial(c) && Unrecognised(digest, Run(digest, c, ops).login, Run(digest, c, ops).disk)
    ensures !AllSafe(Run(digest, c, ops + [PeerInfo]).writes)
  {
    SharedStoredIff(digest, c, ops);
    RunSnoc(digest, c, ops, PeerInfo);
    var (before, after) := (Run(digest, c, ops), Run(digest, c, ops + [PeerInfo]));
    assert after.writes[|before.writes|] == after.disk;
  }

  lemma UnsafePrefix(a: seq<Secret>, b: seq<Secret>)
    requires a <= b && !AllSafe(a)
    ensures !AllSafe(b)
  {
    var i :| 0 <= i < |a| && !Safe(a[i]);
    assert b[i] == a[i];
  }

  lemma OneMoreOp(ops: seq<Op>, k: nat)
    requires k < |ops|
    ensures ops[..k + 1] == ops[..k] + [ops[k]]
  {
  }

  lemma UnrecognisedIsKept(digest: Digest, c: Client, ops: seq<Op>, k: nat)
    requires Initial(c) && k < |ops| && UnrecognisedAt(digest, Run(digest, c, ops[..k]), ops[k])
    ensures !AllSafe(Run(digest, c, ops).writes)
  {
    OneMoreOp(ops, k);
    UnrecognisedIsStored(digest, c, ops[..k]);
    WritesStay(digest, c, ops, k + 1);
    UnsafePrefix(Run(digest, c, ops[..k + 1]).writes, Run(digest, c, ops).writes);
  }

  /**
   The promise and its exact condition, over every run: no shared password is
   ever stored or pushed if and only if no peer info arrives while the password
   in use is an unrecognised shared one.
   */
  lemma SharedKeptIff(digest: Digest, c: Client, ops: seq<Op>)
    requires Initial(c)
    ensures NothingKept(Run(digest, c, ops)) <==> !EverUnrecognised(digest, c, ops)
  {
    if EverUnrecognised(digest, c, ops) {
      var k :| 0 <= k < |ops| && UnrecognisedAt(digest, Run(digest, c, ops[..k]), ops[k]);
      UnrecognisedIsKept(digest, c, ops, k);
    } else {
      TidyUnlessUnrecognised(digest, c, ops);
    }
  }

  // ------------------------------------------------- the runs that keep the promise

  /**
   All hash messages carry one salt, no shared password is in use when sides
   are switched, and peer info with one in use waits for the hash message.
   */
  predicate Expected(c: Client, op: Op, salt: string) {
    var sharedInUse := c.login.password.bytes != [] && c.login.source.SharedAb?;
    match op
    case HashMessage(s, trusted, _, _, _) => s == salt && (c.login.switchUuid && trusted ==> !sharedInUse)
    case PeerInfo => c.login.greeted || !sharedInUse
    case _ => true
  }

  ghost predicate ExpectedRun(digest: Digest, c: Client, ops: seq<Op>, salt: string) {
    ops == [] ||
    (var n := |ops| - 1;
     ExpectedRun(digest, c, ops[..n], salt) && Expected(Run(digest, c, ops[..n]), ops[n], salt))
  }

  /** The remembered source tells the truth about a non-empty password. */
  predicate TruthfulAs(digest: Digest, s: Secret, source: PasswordSource, salt: string) {
    s.bytes != [] ==>
      match source
      case SharedAb(p) => s == Secret(digest(p, salt), FromShared(p))
      case PersonalAb(q) => s.bytes == q && !s.origin.FromShared?
      case Undefined => !s.origin.FromShared?
  }

  predicate LoginInv(digest: Digest, l: Login, salt: string) {
    TruthfulAs(digest, l.password, l.source, salt) && Safe(l.saved) && (l.greeted ==> l.salt == salt)
  }

  predicate Inv(digest: Digest, c: Client, salt: string) {
    && LoginInv(digest, c.login, salt) && StoresSafe(c)
    && (c.token.Some? ==> TruthfulAs(digest, c.token.value.secret, c.token.value.source, salt))
  }

  lemma HashKeepsInv(digest: Digest, l: Login, trusted: bool, preset: string, entry: Option<Secret>,
                     fallback: string, salt: string)
    requires LoginInv(digest, l, salt) && SafeEntry(entry)
    requires l.switchUuid && trusted && l.password.bytes != [] ==> !l.source.SharedAb?
    ensures LoginInv(digest, OnHash(digest, l, salt, trusted, preset, entry, fallback), salt)
  {
    var g := l.(salt := salt, greeted := true, switchUuid := false);
    var a := TryShared(digest, TryPreset(digest, g, preset));
    assert LoginInv(digest, a, salt) && a.salt == salt;
    var b := TryPersonal(TrySaved(a), entry);
    assert LoginInv(digest, b, salt) && b.salt == salt;
  }

  /** Peer info met by a truthful source stores and pushes nothing shared. */
  lemma PeerInfoKeepsInv(digest: Digest, c: Client, salt: string)
    requires Inv(digest, c, salt) && Expected(c, PeerInfo, salt)
    ensures Inv(digest, OnPeerInfo(digest, c), salt)
    ensures c.login.source.SharedAb? && c.login.password.bytes != [] ==>
              OnPeerInfo(digest, c).disk.bytes in {c.disk.bytes, []}
  {
    assert Safe(Remembered(digest, c.login, c.disk));
  }

  lemma ApplyKeepsInv(digest: Digest, c: Client, op: Op, salt: string)
    requires Inv(digest, c, salt) && Expected(c, op, salt)
    ensures Inv(digest, Apply(digest, c, op), salt)
  {
    if op.HashMessage? {
      var entry := if op.signedIn then c.book else None;
      HashKeepsInv(digest, c.login, op.trusted, op.preset, entry, op.fallback, salt);
    } else if op.PeerInfo? {
      PeerInfoKeepsInv(digest, c, salt);
    }
  }

  lemma {:induction false} RunKeepsInv(digest: Digest, c: Client, ops: seq<Op>, salt: string)
    requires Inv(digest, c, salt) && ExpectedRun(digest, c, ops, salt)
    ensures Inv(digest, Run(digest, c, ops), salt)
  {
    if ops != [] {
      var n := |ops| - 1;
      RunKeepsInv(digest, c, ops[..n], salt);
      ApplyKeepsInv(digest, Run(digest, c, ops[..n]), ops[n], salt);
    }
  }

  /**
   Over every expected run, through any number of new handlers, tokens and edits
   of disk and address book: the recorded source is the true one, and no
   password from a shared address book or a built-in default is ever stored or
   pushed to the personal address book.
   */
  lemma SharedPasswordsStayUnsaved(digest: Digest, c: Client, ops: seq<Op>, salt: string)
    requires Initial(c) && ExpectedRun(digest, c, ops, salt)
    ensures var t := Run(digest, c, ops);
            TruthfulAs(digest, t.login.password, t.login.source, salt) && StoresSafe(t) && Safe(t.login.saved)
  {
    RunKeepsInv(digest, c, ops, salt);
  }

  // ------------------------------------------------------ runs that break it

  /** The handler was opened from a shared card for a peer with another password on disk. */
  predicate OpenedFromCard(digest: Digest, c: Client, p: string, salt: string) {
    && Initial(c) && c.login.shared == Some(p) && p != "" && !c.login.switchUuid
    && digest(p, salt) != [] && c.disk.bytes != [] && c.disk.bytes != digest(p, salt)
  }

  /** After its first hash message such a handler uses the shared password, whatever else is on offer. */
  lemma CardIsUsed(digest: Digest, c: Client, p: string, hash: Op)
    requires hash.HashMessage? && OpenedFromCard(digest, c, p, hash.salt)
    ensures Apply(digest, c, hash) ==
            c.(login := c.login.(password := Secret(digest(p, hash.salt), FromShared(p)), source := SharedAb(p),
                                 salt := hash.salt, greeted := true, shared := None))
  {
  }

  /** A peer that changes its salt between two hash messages gets a shared password stored and pushed. */
  lemma ChangedSaltLeaks(digest: Digest, c: Client, p: string, first: Op, second: Op)
    requires first.HashMessage? && second.HashMessage? && OpenedFromCard(digest, c, p, first.salt)
    requires digest(p, second.salt) != digest(p, first.salt)
    ensures var t := Run(digest, c, [first, second, PeerInfo]);
            var leaked := Secret(digest(p, first.salt), FromShared(p));
            t.disk == leaked && t.synced == [leaked]
  {
    CardIsUsed(digest, c, p, first);
    RunSnoc(digest, c, [], first);
    RunSnoc(digest, c, [first], second);
    RunSnoc(digest, c, [first, second], PeerInfo);
    assert [] + [first] == [first] && [first] + [second] == [first, second];
    assert [first, second] + [PeerInfo] == [first, second, PeerInfo];
  }

  /** A new handler that got the shared password by token, before its first message. */
  lemma TokenCarries(digest: Digest, c: Client, p: string, hash: Op, switchUuid: bool)
    requires hash.HashMessage? && OpenedFromCard(digest, c, p, hash.salt)
    ensures var t := Run(digest, c, [hash, TakeToken, Initialize(None, switchUuid, true)]);
            var carried := Secret(digest(p, hash.salt), FromShared(p));
            && t.login == Login(carried, SharedAb(p), "", false, true, c.disk, None, switchUuid)
            && t.disk == c.disk && t.synced == []
  {
    var again := Initialize(None, switchUuid, true);
    CardIsUsed(digest, c, p, hash);
    RunSnoc(digest, c, [], hash);
    RunSnoc(digest, c, [hash], TakeToken);
    RunSnoc(digest, c, [hash, TakeToken], again);
    assert [] + [hash] == [hash] && [hash] + [TakeToken] == [hash, TakeToken];
    assert [hash, TakeToken] + [again] == [hash, TakeToken, again];
  }

  /** Switching sides on a handler with a token forgets the source but keeps the password. */
  lemma SwitchSidesLeaks(digest: Digest, c: Client, p: string, hash: Op, switch: Op)
    requires hash.HashMessage? && switch.HashMessage? && switch.trusted && OpenedFromCard(digest, c, p, hash.salt)
    ensures var t := Run(digest, c, [hash, TakeToken, Initialize(None, true, true), switch, PeerInfo]);
            var leaked := Secret(digest(p, hash.salt), FromShared(p));
            t.disk == leaked && t.synced == [leaked]
  {
    TokenCarries(digest, c, p, hash, true);
    var ops := [hash, TakeToken, Initialize(None, true, true)];
    RunSnoc(digest, c, ops, switch);
    RunSnoc(digest, c, ops + [switch], PeerInfo);
    assert ops + [switch] + [PeerInfo] == [hash, TakeToken, Initialize(None, true, true), switch, PeerInfo];
  }

  /** Peer info without a hash message leaves the token's password to be judged by an empty salt. */
  lemma UngreetedLeaks(digest: Digest, c: Client, p: string, hash: Op)
    requires hash.HashMessage? && OpenedFromCard(digest, c, p, hash.salt) && digest(p, "") != digest(p, hash.salt)
    ensures var t := Run(digest, c, [hash, TakeToken, Initialize(None, false, true), PeerInfo]);
            var leaked := Secret(digest(p, hash.salt), FromShared(p));
            t.disk == leaked && t.synced == [leaked]
  {
    TokenCarries(digest, c, p, hash, false);
    var ops := [hash, TakeToken, Initialize(None, false, true)];
    RunSnoc(digest, c, ops, PeerInfo);
    assert ops + [PeerInfo] == [hash, TakeToken, Initialize(None, false, true), PeerInfo];
  }

  // ------------------------------------------------------- the handler itself

  /** What outlives a handler: the stored configuration, the address book and a token in transit. */
  class Stores {
    var disk: Bytes
    var book: Option<Bytes>
    var token: Option<(Bytes, PasswordSource)>
    ghost var diskOrigin: Origin
    ghost var bookOrigin: Origin
    ghost var tokenOrigin: Origin
    ghost var writes: seq<Secret>
    ghost var synced: seq<Secret>

    constructor (disk: Bytes, book: Option<Bytes>)
      ensures this.disk == disk && this.book == book && token.None? && writes == [] && synced == []
      ensures diskOrigin == FromDisk && bookOrigin == FromPersonal
    {
      this.disk, this.book, this.token := disk, book, None;
      diskOrigin, bookOrigin, tokenOrigin := FromDisk, FromPersonal, FromTyped;
      writes, synced := [], [];
    }

    ghost function TokenView(): Option<Token>
      reads this
    {
      if token.None? then None else Some(Token(Secret(token.value.0, tokenOrigin), token.value.1))
    }

    ghost function DiskView(): Secret
      reads this
    {
      Secret(disk, diskOrigin)
    }

    ghost function BookView(): Option<Secret>
      reads this
    {
      if book.None? then None else Some(Secret(book.value, bookOrigin))
    }
  }

  class LoginConfigHandler {
    const digest: Digest
    const stores: Stores
    var password: Bytes
    var source: PasswordSource
    var salt: string
    var remember: bool
    var saved: Bytes
    var shared: Option<string>
    var switchUuid: bool
    ghost var greeted: bool
    ghost var origin: Origin
    ghost var savedOrigin: Origin

    ghost function LoginView(): Login
      reads this
    {
      Login(Secret(password, origin), source, salt, greeted, remember, Secret(saved, savedOrigin), shared, switchUuid)
    }

    ghost function View(): Client
      reads this, stores
    {
      Client(LoginView(), stores.TokenView(), stores.DiskView(), stores.BookView(), stores.writes, stores.synced)
    }

    constructor (digest: Digest, stores: Stores, sharedPassword: Option<string>)
      requires stores.token.None? && stores.writes == [] && stores.synced == []
      requires stores.diskOrigin == FromDisk && stores.bookOrigin == FromPersonal
      ensures this.digest == digest && this.stores == stores && Initial(View())
      ensures shared == sharedPassword && !switchUuid
    {
      this.digest, this.stores := digest, stores;
      password, source, salt, remember := [], Undefined, "", stores.disk != [];
      saved, shared, switchUuid := stores.disk, sharedPassword, false;
      greeted, origin, savedOrigin := false, FromDisk, FromDisk;
    }

    /** A new connection to the peer, perhaps with a token from an earlier one. */
    method DoInitialize(sharedPassword: Option<string>, uuid: bool, useToken: bool)
      modifies this
      ensures LoginView() ==
              OnInitialize(stores.DiskView(), if useToken then stores.TokenView() else None, sharedPassword, uuid)
    {
      Reset();
      LoadConfig();
      if useToken && stores.token.Some? {
        password, source, origin := stores.token.value.0, stores.token.value.1, stores.tokenOrigin;
      }
      switchUuid := uuid;
      shared := sharedPassword;
    }

    /** The fields of a handler nobody has used. */
    method Reset()
      modifies this`password, this`source, this`salt, this`greeted, this`origin
      ensures password == [] && source == Undefined && salt == "" && !greeted && origin == FromDisk
    {
      password, source, salt, greeted, origin := [], Undefined, "", false, FromDisk;
    }

    method LoadConfig()
      modifies this`remember, this`saved, this`savedOrigin
      ensures remember == (stores.disk != []) && Secret(saved, savedOrigin) == stores.DiskView()
    {
      remember := stores.disk != [];
      saved, savedOrigin := stores.disk, stores.diskOrigin;
    }

    method GetConnToken()
      modifies stores`token, stores`tokenOrigin
      ensures View() == Apply(digest, old(View()), TakeToken)
    {
      if password == [] {
        stores.token := None;
      } else {
        stores.token, stores.tokenOrigin := Some((password, source)), origin;
      }
    }

    /** The handler with a candidate password not yet stored. */
    ghost function With(candidate: Bytes): Login
      reads this
    {
      LoginView().(password := Secret(candidate, origin))
    }

    ghost function Entry(signedIn: bool): Option<Secret>
      reads stores
    {
      if signedIn then stores.BookView() else None
    }

    method TryPresetPassword(candidate: Bytes, preset: string) returns (next: Bytes)
      modifies this`source, this`origin
      ensures With(next) == TryPreset(digest, old(With(candidate)), preset)
    {
      next := candidate;
      if candidate == [] && preset != "" {
        next, origin := digest(preset, salt), FromPreset;
        source := Undefined;
      }
    }

    method TakeSharedPassword(candidate: Bytes) returns (next: Bytes)
      modifies this`source, this`origin, this`shared
      ensures With(next) == TryShared(digest, old(With(candidate)))
    {
      next := candidate;
      var taken := shared;
      shared := None;
      if taken.Some? && taken.value != "" {
        next, origin := digest(taken.value, salt), FromShared(taken.value);
        source := SharedAb(taken.value);
      }
    }

    method TrySavedPassword(candidate: Bytes) returns (next: Bytes)
      modifies this`source, this`origin
      ensures With(next) == TrySaved(old(With(candidate)))
    {
      next := candidate;
      if next == [] {
        next := saved;
        if next != [] {
          origin := savedOrigin;
          source := Undefined;
        }
      }
    }

    /** `signedIn` says whether the address book belongs to the account now signed in. */
    method TryPersonalPassword(candidate: Bytes, signedIn: bool) returns (next: Bytes)
      modifies this`source, this`origin
      ensures With(next) == TryPersonal(old(With(candidate)), Entry(signedIn))
    {
      next := candidate;
      if candidate == [] && signedIn && stores.book.Some? && stores.book.value != [] {
        next, origin := stores.book.value, stores.bookOrigin;
        source := PersonalAb(next);
      }
    }

    method TryDefaultPassword(candidate: Bytes, fallback: string) returns (next: Bytes)
      modifies this`source, this`origin
      ensures With(next) == TryFallback(digest, old(With(candidate)), fallback)
    {
      next := candidate;
      if candidate == [] && fallback != "" {
        next, origin := digest(fallback, salt), FromShared(fallback);
        source := SharedAb(fallback);
      }
    }

    /** `trusted` says whether a waiting switch request parses and the local service vouches for it. */
    method HandleHash(hashSalt: string, trusted: bool, preset: string, signedIn: bool, fallback: string)
      modifies this
      ensures LoginView() ==
              OnHash(digest, old(LoginView()), hashSalt, trusted, preset, Entry(signedIn), fallback)
    {
      var uuid := TakeSwitchRequest(hashSalt);
      if uuid && trusted {
        source := Undefined;
        return;
      }
      ChoosePassword(preset, signedIn, fallback);
    }

    method TakeSwitchRequest(hashSalt: string) returns (uuid: bool)
      modifies this`salt, this`greeted, this`switchUuid
      ensures uuid == old(switchUuid)
      ensures LoginView() == old(LoginView()).(salt := hashSalt, greeted := true, switchUuid := false)
    {
      salt, greeted := hashSalt, true;
      uuid := switchUuid;
      switchUuid := false;
    }

    method ChoosePassword(preset: string, signedIn: bool, fallback: string)
      modifies this`password, this`source, this`origin, this`shared
      ensures LoginView() ==
              LastChoices(digest, FirstChoices(digest, old(LoginView()), preset), Entry(signedIn), fallback)
    {
      ghost var start := LoginView();
      assert With(password) == start;
      var candidate := FirstCandidates(password, preset);
      ghost var first := With(candidate);
      assert first == FirstChoices(digest, start, preset);
      candidate := LastCandidates(candidate, signedIn, fallback);
      ghost var last := With(candidate);
      assert last == LastChoices(digest, first, Entry(signedIn), fallback);
      password := candidate;
    }

    method FirstCandidates(candidate: Bytes, preset: string) returns (next: Bytes)
      modifies this`source, this`origin, this`shared
      ensures With(next) == FirstChoices(digest, old(With(candidate)), preset)
    {
      next := TryPresetPassword(candidate, preset);
      next := TakeSharedPassword(next);
      next := TrySavedPassword(next);
    }

    method LastCandidates(candidate: Bytes, signedIn: bool, fallback: string) returns (next: Bytes)
      modifies this`source, this`origin
      ensures With(next) == LastChoices(digest, old(With(candidate)), Entry(signedIn), fallback)
    {
      next := TryPersonalPassword(candidate, signedIn);
      next := TryDefaultPassword(next, fallback);
    }

    method HandleLoginFromUi(text: string, rememberIt: bool)
      modifies this
      ensures LoginView() == OnUiLogin(digest, old(LoginView()), text, rememberIt)
    {
      if text == "" {
        var candidate := TrySavedPassword(password);
        password := candidate;
      } else {
        source, origin := Undefined, FromTyped;
        remember := rememberIt;
        password := digest(text, salt);
      }
    }

    method HandleLoginError(kind: ErrorKind)
      modifies this
      ensures LoginView() == OnLoginError(old(LoginView()), kind)
    {
      if kind == PasswordEmpty || kind == PasswordWrong {
        password := [];
      }
    }

    method HandlePeerInfo()
      modifies this, stores
      ensures View() == OnPeerInfo(digest, old(View()))
    {
      var config := stores.disk;
      ghost var configOrigin := stores.diskOrigin;
      if remember {
        if password != [] && password != stores.disk && !IsSharedAb(digest, source, password, salt) {
          config, configOrigin := password, origin;
        }
      } else {
        if IsPersonalAb(source, password) {
          config, configOrigin := password, origin;
        } else {
          config, configOrigin := [], FromDisk;
        }
      }
      if config != [] && !IsSharedAb(digest, source, password, salt) && !IsPersonalAb(source, password) {
        stores.synced := stores.synced + [Secret(config, configOrigin)];
      }
      StoreConfig(config, configOrigin);
    }

    method StoreConfig(config: Bytes, ghost configOrigin: Origin)
      modifies this`saved, this`savedOrigin, stores`disk, stores`diskOrigin, stores`writes
      ensures var kept := Secret(config, configOrigin);
              View() == old(View()).(login := old(LoginView()).(saved := kept), disk := kept,
                                     writes := old(stores.writes) + [kept])
    {
      saved, savedOrigin := config, configOrigin;
      stores.disk, stores.diskOrigin := config, configOrigin;
      stores.writes := stores.writes + [Secret(config, configOrigin)];
    }
  }
}
