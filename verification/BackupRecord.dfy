/** The persisted backup record: what is required, what is confirmed, and the one-time code. */
module BackupRecord {
  import opened Wrappers

  const CODE_TTL := 7 * 24 * 3600
  const MAX_ATTEMPTS := 5

  datatype Code = Code(hash: string, fingerprint: string, expires: int, attempts: nat)

  /** The fields of the record that decide anything; `invalid` stands for the reason why a record reads as bad. */
  datatype Doc = Doc(required: bool, invalid: bool, code: Option<Code>, confirmed: bool, fingerprint: Option<string>)

  /** The file: absent, unreadable in any way, or a record. */
  datatype Stored = Missing | Unreadable | Record(doc: Doc)

  const EMPTY := Doc(false, false, None, false, None)

  /** A record that cannot be trusted reads as required and unconfirmed. */
  function Read(s: Stored): Option<Doc>
  {
    match s
    case Missing => None
    case Unreadable => Some(EMPTY.(required := true, invalid := true))
    case Record(doc) => Some(doc)
  }

  function ReadOrEmpty(s: Stored): Doc
  {
    match Read(s)
    case None => EMPTY
    case Some(doc) => doc
  }

  // ----- operations -----

  /** `require_backup`: only a record that is not required yet is written. */
  function Require(s: Stored): Stored
  {
    var doc := ReadOrEmpty(s);
    if doc.required then s else Record(doc.(required := true, invalid := false))
  }

  /** `confirm_backup` */
  function Confirm(s: Stored, fingerprint: string): Stored
  {
    Record(ReadOrEmpty(s).(invalid := false, code := None, required := true, confirmed := true, fingerprint := Some(fingerprint)))
  }

  /** `issue_backup_code`: it does not make a backup required. */
  function Issue(s: Stored, hash: string, fingerprint: string, now: int): Stored
  {
    Record(ReadOrEmpty(s).(invalid := false, code := Some(Code(hash, fingerprint, now + CODE_TTL, 0))))
  }

  datatype Outcome = NoCode | OtherSeed | Expired | Wrong | TooMany | Success

  /** `confirm_with_code`: the guess arrives as the hash that it gives for the live seed. */
  function Guess(s: Stored, hash: string, live: string, now: int): (Stored, Outcome)
  {
    if Read(s).None? || Read(s).value.code.None? then (s, NoCode)
    else
      var doc, c := Read(s).value, Read(s).value.code.value;
      if c.fingerprint != live then (s, OtherSeed)
      else if c.expires < now then (Record(doc.(code := None)), Expired)
      else if c.hash != hash then
        if c.attempts + 1 >= MAX_ATTEMPTS then (Record(doc.(code := None)), TooMany)
        else (Record(doc.(code := Some(c.(attempts := c.attempts + 1)))), Wrong)
      else (Confirm(s, live), Success)
  }

  datatype Status = Legacy | Pending | Confirmed

  /** `backup_status` for the seed the daemon signs with, if it has one. */
  function StatusOf(s: Stored, live: Option<string>): Status
  {
    match Read(s)
    case None => Legacy
    case Some(doc) =>
      if live.Some? && doc.confirmed && doc.fingerprint == live && !doc.invalid then Confirmed
      else if !doc.required && !doc.invalid then Legacy
      else Pending
  }

  // ----- runs -----

  datatype Op =
    | DoRequire
    | DoConfirm(fingerprint: string)
    | DoIssue(hash: string, fingerprint: string, now: int)
    | DoGuess(hash: string, live: string, now: int)

  function Apply(s: Stored, op: Op): Stored
  {
    match op
    case DoRequire => Require(s)
    case DoConfirm(fp) => Confirm(s, fp)
    case DoIssue(h, fp, now) => Issue(s, h, fp, now)
    case DoGuess(h, live, now) => Guess(s, h, live, now).0
  }

  function Run(s: Stored, ops: seq<Op>): Stored
    decreases |ops|
  {
    if ops == [] then s else Run(Apply(s, ops[0]), ops[1..])
  }

  /** A record that has been marked bad without being required; the code writes none. */
  predicate Trusted(s: Stored) { s.Record? && s.doc.invalid ==> s.doc.required }

  /** A record that asks for a backup. */
  predicate Asks(s: Stored) { Read(s).Some? && Read(s).value.required }

  lemma {:induction false} AsksForever(s: Stored, ops: seq<Op>)
    requires Asks(s)
    ensures Asks(Run(s, ops))
    decreases |ops|
  {
    if ops != [] {
      AsksForever(Apply(s, ops[0]), ops[1..]);
    }
  }

  lemma {:induction false} TrustedForever(s: Stored, ops: seq<Op>)
    requires Trusted(s)
    ensures Trusted(Run(s, ops))
    decreases |ops|
  {
    if ops != [] {
      TrustedForever(Apply(s, ops[0]), ops[1..]);
    }
  }

  /** Pending never becomes legacy: from a pending record, whatever is called after that and whatever
      seed is then live, the status is not legacy. */
  lemma {:induction false} PendingStays(s: Stored, live: Option<string>, ops: seq<Op>, later: Option<string>)
    requires Trusted(s) && StatusOf(s, live) == Pending
    ensures StatusOf(Run(s, ops), later) != Legacy
  {
    AsksForever(s, ops);
  }

  /** Exactly for a record that is marked bad and not required does issuing a code turn pending into legacy. */
  lemma IssueOpens(s: Stored, live: Option<string>, hash: string, fingerprint: string, now: int)
    requires StatusOf(s, live) == Pending
    ensures StatusOf(Issue(s, hash, fingerprint, now), live) == Legacy <==>
            !Trusted(s) && !(live.Some? && s.doc.confirmed && s.doc.fingerprint == live)
  {}

  /** Such a record. */
  lemma UntrustedExample()
    ensures var s := Record(EMPTY.(invalid := true));
            StatusOf(s, Some("a")) == Pending && StatusOf(Issue(s, "h", "a", 0), Some("a")) == Legacy
  {
    IssueOpens(Record(EMPTY.(invalid := true)), Some("a"), "h", "a", 0);
  }

  // ----- confirmation -----

  /** The seed named once `op` is done: a confirmation by words or by a code that succeeds names its own. */
  function NamedBy(s: Stored, op: Op, before: Option<string>): Option<string>
  {
    match op
    case DoConfirm(fp) => Some(fp)
    case DoGuess(h, live, now) => if Guess(s, h, live, now).1 == Success then Some(live) else before
    case _ => before
  }

  /** The seed named by the last confirmation of a run. */
  function LastNamed(s: Stored, ops: seq<Op>, before: Option<string>): Option<string>
    decreases |ops|
  {
    if ops == [] then before else LastNamed(Apply(s, ops[0]), ops[1..], NamedBy(s, ops[0], before))
  }

  /** The record names the seed that was confirmed, or none. */
  predicate Names(s: Stored, named: Option<string>) {
    var doc := ReadOrEmpty(s);
    if named.Some? then doc.confirmed && doc.fingerprint == named && !doc.invalid && doc.required
    else !doc.confirmed
  }

  lemma NamesStep(s: Stored, op: Op, named: Option<string>)
    requires Names(s, named)
    ensures Names(Apply(s, op), NamedBy(s, op, named))
  {}

  lemma {:induction false} NamesRun(s: Stored, ops: seq<Op>, named: Option<string>)
    requires Names(s, named)
    ensures Names(Run(s, ops), LastNamed(s, ops, named))
    decreases |ops|
  {
    hide Names, Apply, NamedBy;
    if ops != [] {
      NamesStep(s, ops[0], named);
      NamesRun(Apply(s, ops[0]), ops[1..], NamedBy(s, ops[0], named));
    }
  }

  /** From a record without a confirmation, a seed is confirmed exactly when the last confirmation named it. */
  lemma {:induction false} ConfirmedExactly(s: Stored, ops: seq<Op>, live: string)
    requires Names(s, None)
    ensures StatusOf(Run(s, ops), Some(live)) == Confirmed <==> LastNamed(s, ops, None) == Some(live)
  {
    NamesRun(s, ops, None);
    hide Run, LastNamed;
  }

  // ----- the one-time code -----

  predicate NoIssue(ops: seq<Op>) { forall i :: 0 <= i < |ops| ==> !ops[i].DoIssue? }

  /** How many guesses of a run succeed, and how many are compared with the code and are wrong. */
  function Successes(s: Stored, ops: seq<Op>): nat
    decreases |ops|
  {
    if ops == [] then 0
    else
      (if ops[0].DoGuess? && Guess(s, ops[0].hash, ops[0].live, ops[0].now).1 == Success then 1 else 0)
      + Successes(Apply(s, ops[0]), ops[1..])
  }

  function WrongGuesses(s: Stored, ops: seq<Op>): nat
    decreases |ops|
  {
    if ops == [] then 0
    else
      (if ops[0].DoGuess? && Guess(s, ops[0].hash, ops[0].live, ops[0].now).1 in {Wrong, TooMany} then 1 else 0)
      + WrongGuesses(Apply(s, ops[0]), ops[1..])
  }

  /** How many more wrong guesses the outstanding code stands: none when there is no code. */
  function Budget(s: Stored): nat
  {
    var doc := ReadOrEmpty(s);
    if doc.code.None? then 0
    else if doc.code.value.attempts + 1 >= MAX_ATTEMPTS then 1
    else MAX_ATTEMPTS - doc.code.value.attempts
  }

  lemma BudgetStep(s: Stored, op: Op)
    requires !op.DoIssue?
    ensures Budget(Apply(s, op)) <= Budget(s)
    ensures op.DoGuess? ==>
              var o := Guess(s, op.hash, op.live, op.now).1;
              && (o == Success ==> Budget(s) > 0 && Budget(Apply(s, op)) == 0)
              && (o in {Wrong, TooMany} ==> Budget(Apply(s, op)) + 1 <= Budget(s))
  {}

  /** Until another code is issued, the outstanding code succeeds at most once and is compared with no
      more wrong guesses than its budget; without a code nothing succeeds. */
  lemma {:induction false} CodeBudget(s: Stored, ops: seq<Op>)
    requires NoIssue(ops)
    ensures WrongGuesses(s, ops) <= Budget(s)
    ensures Successes(s, ops) <= if Budget(s) > 0 then 1 else 0
    decreases |ops|
  {
    hide Budget, Guess, Apply;
    if ops != [] {
      BudgetStep(s, ops[0]);
      CodeBudget(Apply(s, ops[0]), ops[1..]);
    }
  }

  /** An issued code is compared with at most five wrong guesses and succeeds at most once. */
  lemma {:induction false} IssuedCode(s: Stored, hash: string, fingerprint: string, now: int, ops: seq<Op>)
    requires NoIssue(ops)
    ensures WrongGuesses(Issue(s, hash, fingerprint, now), ops) <= 5
    ensures Successes(Issue(s, hash, fingerprint, now), ops) <= 1
  {
    CodeBudget(Issue(s, hash, fingerprint, now), ops);
  }

  /** The store after `n` wrong guesses in a row at an issued code, each in time and for its seed. */
  function Guessed(s: Stored, n: nat, wrong: string, live: string, now: int): Stored
  {
    if n == 0 then s else Guess(Guessed(s, n - 1, wrong, live, now), wrong, live, now).0
  }

  lemma {:induction false} GuessedKeeps(s: Stored, hash: string, fingerprint: string, now: int, n: nat, wrong: string, t: int)
    requires n < 5 && wrong != hash && t <= now + 604_800
    ensures var g := Guessed(Issue(s, hash, fingerprint, now), n, wrong, fingerprint, t);
            g.Record? && g.doc.code == Some(Code(hash, fingerprint, now + 604_800, n))
  {
    if n > 0 {
      GuessedKeeps(s, hash, fingerprint, now, n - 1, wrong, t);
    }
  }

  /** An issued code answers for seven days and through four wrong guesses: in that time the right guess
      succeeds and confirms the seed, and a fifth wrong one ends the code; afterwards it has expired, and
      for another seed it is not looked at. */
  lemma {:induction false} IssuedExactly(s: Stored, hash: string, fingerprint: string, now: int, n: nat, wrong: string,
                                         t: int, guess: string, live: string, later: int)
    requires n < 5 && wrong != hash && t <= now + 604_800
    ensures var g := Guessed(Issue(s, hash, fingerprint, now), n, wrong, fingerprint, t);
            var (after, o) := Guess(g, guess, live, later);
            && (o == OtherSeed <==> live != fingerprint)
            && (o == Expired <==> live == fingerprint && later > now + 604_800)
            && (o == Success <==> live == fingerprint && later <= now + 604_800 && guess == hash)
            && (o == TooMany <==> live == fingerprint && later <= now + 604_800 && guess != hash && n == 4)
            && (o == Success ==> StatusOf(after, Some(live)) == Confirmed)
            && (o in {Expired, TooMany, Success} ==> Guess(after, guess, live, later).1 == NoCode)
            && (o == OtherSeed ==> after == g)
  {
    GuessedKeeps(s, hash, fingerprint, now, n, wrong, t);
    hide Guessed, Issue;
  }

  // ----- the record that is read, changed and written back -----

  class Store {
    var file: Stored

    constructor ()
      ensures file == Missing
    {
      file := Missing;
    }

    method RequireBackup()
      modifies this
      ensures file == Apply(old(file), DoRequire)
    {
      var doc := ReadOrEmpty(file);
      doc := doc.(invalid := false);
      if !doc.required {
        doc := doc.(required := true);
        file := Record(doc);
      }
    }

    method ConfirmBackup(fingerprint: string)
      modifies this
      ensures file == Apply(old(file), DoConfirm(fingerprint))
    {
      var doc := ReadOrEmpty(file);
      doc := doc.(invalid := false);
      doc := doc.(code := None);
      doc := doc.(required := true, confirmed := true, fingerprint := Some(fingerprint));
      file := Record(doc);
    }

    method IssueBackupCode(hash: string, fingerprint: string, now: int)
      modifies this
      ensures file == Apply(old(file), DoIssue(hash, fingerprint, now))
    {
      var doc := ReadOrEmpty(file);
      doc := doc.(invalid := false);
      doc := doc.(code := Some(Code(hash, fingerprint, now + CODE_TTL, 0)));
      file := Record(doc);
    }

    method ConfirmWithCode(hash: string, live: string, now: int) returns (o: Outcome)
      modifies this
      ensures file == Apply(old(file), DoGuess(hash, live, now)) && o == Guess(old(file), hash, live, now).1
    {
      var read := Read(file);
      if read.None? || read.value.code.None? {
        return NoCode;
      }
      var doc := read.value;
      var c := doc.code.value;
      if c.fingerprint != live {
        return OtherSeed;
      }
      if c.expires < now {
        file := Record(doc.(code := None));
        return Expired;
      }
      if c.hash != hash {
        c := c.(attempts := c.attempts + 1);
        if c.attempts >= MAX_ATTEMPTS {
          file := Record(doc.(code := None));
          return TooMany;
        }
        file := Record(doc.(code := Some(c)));
        return Wrong;
      }
      ConfirmBackup(live);
      return Success;
    }
  }
}
