/**
 * The daily SIP reminder: which plans the 09:00 job reminds about on a
 * given day of the month. Three plan names are tied to three days.
 */
module Schedule {
  import opened Text
  import opened Store

  /**
   * The hard-coded (name, day) pairs; the name is compared after lower-casing.
   * Only the 11th, 18th and 19th can be due, and only a name with a separator
   * in it, since all three names contain a blank.
   */
  predicate Due(name: string, day: int): (r: bool)
    ensures r ==> day == 11 || day == 18 || day == 19
    ensures r ==> exists i :: 0 <= i < |name| && IsSpace(name[i])
  {
    LowerKeepsSpaces(name);
    assert IsSpace("icici corporate bond"[5]) && IsSpace("nippon equity"[6]) && IsSpace("goal sip"[4]);
    || (Lower(name) == "icici corporate bond" && day == 11)
    || (Lower(name) == "nippon equity" && day == 18)
    || (Lower(name) == "goal sip" && day == 19)
  }

  /** One reminder message: the stored name and amount of the plan. */
  datatype Reminder = Reminder(name: string, amount: real)

  /** The reminders sent on `day`, one per due plan, in stored order. */
  function Reminders(day: int, sips: seq<Sip>): (r: seq<Reminder>)
    ensures |r| <= |sips|
    ensures forall x :: x in r ==> exists p :: p in sips && Due(p.name, day) && x == Reminder(p.name, p.amount)
    ensures forall p :: p in sips && Due(p.name, day) ==> Reminder(p.name, p.amount) in r
  {
    if |sips| == 0 then []
    else
      var p := sips[|sips| - 1];
      assert sips == sips[..|sips| - 1] + [p];
      Reminders(day, sips[..|sips| - 1]) + (if Due(p.name, day) then [Reminder(p.name, p.amount)] else [])
  }

  /** The reminders of one more plan. */
  lemma RemindersStep(day: int, sips: seq<Sip>, i: nat)
    requires i < |sips|
    ensures Reminders(day, sips[..i + 1])
      == Reminders(day, sips[..i]) + (if Due(sips[i].name, day) then [Reminder(sips[i].name, sips[i].amount)] else [])
  {
    assert sips[..i + 1][..i] == sips[..i];
  }

  /** The body of `job`: walk the plans and send a reminder for each due one. */
  method Job(day: int, sips: seq<Sip>) returns (sent: seq<Reminder>)
    ensures sent == Reminders(day, sips)
  {
    sent := [];
    var i := 0;
    while i < |sips|
      invariant 0 <= i <= |sips|
      invariant sent == Reminders(day, sips[..i])
    {
      var p := sips[i];
      RemindersStep(day, sips, i);
      if Due(p.name, day) {
        sent := sent + [Reminder(p.name, p.amount)];
      }
      i := i + 1;
    }
    assert sips[..i] == sips;
  }

  /** Selection distributes over concatenation: reminders keep the stored order. */
  lemma {:induction false} RemindersAppend(day: int, a: seq<Sip>, b: seq<Sip>)
    ensures Reminders(day, a + b) == Reminders(day, a) + Reminders(day, b)
  {
    if |b| == 0 {
      assert a + b == a;
    } else {
      var b' := b[..|b| - 1];
      assert (a + b)[..|a + b| - 1] == a + b';
      RemindersAppend(day, a, b');
    }
  }

  /** On every day other than the 11th, 18th and 19th nothing is sent. */
  lemma {:induction false} QuietDays(day: int, sips: seq<Sip>)
    requires day != 11 && day != 18 && day != 19
    ensures Reminders(day, sips) == []
  {
    if |sips| > 0 {
      QuietDays(day, sips[..|sips| - 1]);
    }
  }

  /**
   * On each of the three reminder days the reminders are exactly those of the
   * plans whose lower-cased name is that day's name, one each, in stored order:
   * "icici corporate bond" on the 11th, "nippon equity" on the 18th, "goal sip"
   * on the 19th.
   */
  lemma {:induction false} DaySelectsItsPlans(day: int, lowered: string, sips: seq<Sip>)
    requires (day, lowered) in {(11, "icici corporate bond"), (18, "nippon equity"), (19, "goal sip")}
    ensures Reminders(day, sips) == ToReminders(Matching(sips, lowered))
  {
    if |sips| > 0 {
      var p := sips[|sips| - 1];
      var mi := Matching(sips[..|sips| - 1], lowered);
      DaySelectsItsPlans(day, lowered, sips[..|sips| - 1]);
      assert Due(p.name, day) <==> Lower(p.name) == lowered;
      assert Matching(sips, lowered) == mi + (if Lower(p.name) == lowered then [p] else []);
      if Lower(p.name) == lowered {
        assert (mi + [p])[..|mi + [p]| - 1] == mi;
      } else {
        assert mi + [] == mi;
      }
    }
  }

  /** The reminder message of each plan, in order. */
  function ToReminders(ps: seq<Sip>): seq<Reminder> {
    if |ps| == 0 then []
    else ToReminders(ps[..|ps| - 1]) + [Reminder(ps[|ps| - 1].name, ps[|ps| - 1].amount)]
  }

  /** The plans whose lower-cased name is `lowered`, in stored order. */
  function Matching(sips: seq<Sip>, lowered: string): (r: seq<Sip>)
    ensures forall p :: p in r <==> p in sips && Lower(p.name) == lowered
  {
    if |sips| == 0 then []
    else
      var p := sips[|sips| - 1];
      assert sips == sips[..|sips| - 1] + [p];
      Matching(sips[..|sips| - 1], lowered) + (if Lower(p.name) == lowered then [p] else [])
  }

  // ---------------------------------------------------------------------------
  // Reminder plans and the command surface

  /** A single token never names a reminder plan: all three names contain a blank. */
  lemma WordIsNeverDue(w: string, day: int)
    requires IsWord(w)
    ensures !Due(w, day)
  {
    var l := Lower(w);
    LowerKeepsSpaces(w);
    assert forall i :: 0 <= i < |l| ==> !IsSpace(l[i]);
    assert IsSpace("icici corporate bond"[5]) && IsSpace("nippon equity"[6]) && IsSpace("goal sip"[4]);
  }

  /** Replacing a plan that is not due by another that is not due changes no reminder. */
  lemma {:induction false} RemindersReplaced(day: int, sips: seq<Sip>, k: nat, x: Sip)
    requires k < |sips| && !Due(sips[k].name, day) && !Due(x.name, day)
    ensures Reminders(day, sips[k := x]) == Reminders(day, sips)
  {
    var n := |sips| - 1;
    assert sips[k := x][..n] == if k == n then sips[..n] else sips[..n][k := x];
    if k < n {
      RemindersReplaced(day, sips[..n], k, x);
    }
  }

  /** /addsip with a single-token name never changes what any day's reminders are. */
  lemma AddSipKeepsReminders(sips: seq<Sip>, name: string, amount: real, day: int)
    requires IsWord(name)
    ensures Reminders(day, UpsertedSips(sips, name, amount)) == Reminders(day, sips)
  {
    WordIsNeverDue(name, day);
    match FindName(SipNames(sips), name)
    case Some(k) =>
      assert Lower(sips[k].name) == Lower(name);
      RemindersReplaced(day, sips, k, sips[k].(amount := amount));
    case None =>
      var last := Sip(name, amount);
      assert (sips + [last])[..|sips|] == sips;
  }

  /** The reminders of a single plan: one when it is due, none otherwise. */
  lemma RemindersSingle(day: int, p: Sip)
    ensures Reminders(day, [p]) == if Due(p.name, day) then [Reminder(p.name, p.amount)] else []
  {
    assert [p][..0] == [];
  }

  /** /deletesip with a single-token name never removes a plan that is due. */
  lemma {:induction false} DeleteSipKeepsReminders(sips: seq<Sip>, name: string, day: int)
    requires IsWord(name)
    ensures Reminders(day, DeletedSips(sips, name)) == Reminders(day, sips)
  {
    if |sips| > 0 {
      var p := sips[0];
      var rest := DeletedSips(sips[1..], name);
      DeleteSipKeepsReminders(sips[1..], name, day);
      assert sips == [p] + sips[1..];
      RemindersAppend(day, [p], sips[1..]);
      if SameName(p.name, name) {
        WordIsNeverDue(name, day);
        RemindersSingle(day, p);
        assert DeletedSips(sips, name) == rest;
      } else {
        assert DeletedSips(sips, name) == [p] + rest;
        RemindersAppend(day, [p], rest);
      }
    }
  }
}
