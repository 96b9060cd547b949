/**
 * The portfolio document and the list logic of /addstock, /deletestock,
 * /addsip and /deletesip. Both lists are keyed by name, compared after
 * lower-casing.
 */
module Store {
  import opened Wrappers
  import opened Text

  /** One entry of the "stocks" list. */
  datatype Holding = Holding(name: string, qty: int, buyPrice: real)

  /** One entry of the "sip" list. */
  datatype Sip = Sip(name: string, amount: real)

  /** The whole document `{"stocks": [...], "sip": [...]}`, as loaded and saved together. */
  datatype Snapshot = Snapshot(stocks: seq<Holding>, sip: seq<Sip>)

  /** What `load_portfolio` returns when the file is missing or unreadable. */
  function EmptySnapshot(): (s: Snapshot)
    ensures |s.stocks| == 0 && |s.sip| == 0
  {
    Snapshot([], [])
  }

  // ---------------------------------------------------------------------------
  // Finding a name

  /** The index of the first name equal to `name` up to case, if any. */
  function FindName(names: seq<string>, name: string): (r: Option<nat>)
    ensures r.Some? ==> r.value < |names| && SameName(names[r.value], name)
    ensures r.Some? ==> forall j :: 0 <= j < r.value ==> !SameName(names[j], name)
    ensures r.None? <==> forall j :: 0 <= j < |names| ==> !SameName(names[j], name)
  {
    if |names| == 0 then None
    else if SameName(names[0], name) then Some(0)
    else match FindName(names[1..], name)
      case None => None
      case Some(k) => Some(k + 1)
  }

  /** A match at `k` with no match before it is the one FindName reports. */
  lemma FindNameAt(names: seq<string>, name: string, k: nat)
    requires k < |names| && SameName(names[k], name)
    requires forall j :: 0 <= j < k ==> !SameName(names[j], name)
    ensures FindName(names, name) == Some(k)
  {
    var r := FindName(names, name);
    assert r.Some?;
    assert !(r.value < k) && !(k < r.value);
  }

  function HoldingNames(s: seq<Holding>): (r: seq<string>)
    ensures |r| == |s| && forall i :: 0 <= i < |s| ==> r[i] == s[i].name
  {
    seq(|s|, i requires 0 <= i < |s| => s[i].name)
  }

  function SipNames(s: seq<Sip>): (r: seq<string>)
    ensures |r| == |s| && forall i :: 0 <= i < |s| ==> r[i] == s[i].name
  {
    seq(|s|, i requires 0 <= i < |s| => s[i].name)
  }

  /** No two entries share a name up to case. */
  predicate UniqueNames(names: seq<string>) {
    forall i, j :: 0 <= i < j < |names| ==> !SameName(names[i], names[j])
  }

  lemma UniqueTail(names: seq<string>)
    requires |names| > 0 && UniqueNames(names)
    ensures UniqueNames(names[1..])
  {
    assert forall j :: 0 <= j < |names| - 1 ==> names[1..][j] == names[j + 1];
  }

  lemma UniqueCons(n: string, names: seq<string>)
    requires UniqueNames(names)
    requires forall j :: 0 <= j < |names| ==> !SameName(n, names[j])
    ensures UniqueNames([n] + names)
  {
    var r := [n] + names;
    forall i, j | 0 <= i < j < |r|
      ensures !SameName(r[i], r[j])
    {
      assert r[j] == names[j - 1];
      if i > 0 {
        assert r[i] == names[i - 1];
      }
    }
  }

  // ---------------------------------------------------------------------------
  // /addstock: update the first match in place, otherwise append

  /** The "stocks" list after /addstock name qty buyPrice. */
  function UpsertedHoldings(s: seq<Holding>, name: string, qty: int, buyPrice: real): (r: seq<Holding>)
    ensures match FindName(HoldingNames(s), name)
      case Some(k) =>
        && |r| == |s|
        && r[k] == Holding(s[k].name, qty, buyPrice)
        && forall j :: 0 <= j < |s| && j != k ==> r[j] == s[j]
      case None => r == s + [Holding(name, qty, buyPrice)]
  {
    match FindName(HoldingNames(s), name)
    case Some(k) => s[k := s[k].(qty := qty, buyPrice := buyPrice)]
    case None => s + [Holding(name, qty, buyPrice)]
  }

  /** The `for ... break ... else append` loop of /addstock. */
  method UpsertHolding(s: seq<Holding>, name: string, qty: int, buyPrice: real) returns (r: seq<Holding>)
    ensures r == UpsertedHoldings(s, name, qty, buyPrice)
  {
    var i := 0;
    while i < |s|
      invariant 0 <= i <= |s|
      invariant forall j :: 0 <= j < i ==> !SameName(s[j].name, name)
    {
      if Lower(s[i].name) == Lower(name) {
        FindNameAt(HoldingNames(s), name, i);
        r := s[i := s[i].(qty := qty, buyPrice := buyPrice)];
        return;
      }
      i := i + 1;
    }
    r := s + [Holding(name, qty, buyPrice)];
  }

  /** After /addstock the name is present, with the values just given. */
  lemma UpsertHoldingFinds(s: seq<Holding>, name: string, qty: int, buyPrice: real)
    ensures var r := UpsertedHoldings(s, name, qty, buyPrice);
      && FindName(HoldingNames(r), name).Some?
      && var k := FindName(HoldingNames(r), name).value;
         r[k].qty == qty && r[k].buyPrice == buyPrice
  {
    var r := UpsertedHoldings(s, name, qty, buyPrice);
    match FindName(HoldingNames(s), name)
    case Some(k) =>
      FindNameAt(HoldingNames(r), name, k);
    case None =>
      FindNameAt(HoldingNames(r), name, |s|);
  }

  /** A second /addstock for the same name (in any case) leaves one entry, with the latest values and the first stored name. */
  lemma UpsertHoldingLatestWins(s: seq<Holding>, n1: string, n2: string, q1: int, p1: real, q2: int, p2: real)
    requires SameName(n1, n2)
    ensures UpsertedHoldings(UpsertedHoldings(s, n1, q1, p1), n2, q2, p2) == UpsertedHoldings(s, n1, q2, p2)
  {
    var r := UpsertedHoldings(s, n1, q1, p1);
    match FindName(HoldingNames(s), n1)
    case Some(k) =>
      FindNameAt(HoldingNames(r), n2, k);
    case None =>
      FindNameAt(HoldingNames(r), n2, |s|);
  }

  /** The same /addstock command twice has the effect of once. */
  lemma UpsertHoldingIdempotent(s: seq<Holding>, name: string, qty: int, buyPrice: real)
    ensures var r := UpsertedHoldings(s, name, qty, buyPrice);
      UpsertedHoldings(r, name, qty, buyPrice) == r
  {
    UpsertHoldingLatestWins(s, name, name, qty, buyPrice, qty, buyPrice);
  }

  /** /addstock keeps names unique up to case. */
  lemma UpsertHoldingKeepsUnique(s: seq<Holding>, name: string, qty: int, buyPrice: real)
    requires UniqueNames(HoldingNames(s))
    ensures UniqueNames(HoldingNames(UpsertedHoldings(s, name, qty, buyPrice)))
  {
    var r := UpsertedHoldings(s, name, qty, buyPrice);
    assert forall i :: 0 <= i < |s| ==> r[i].name == s[i].name;
  }

  // ---------------------------------------------------------------------------
  // /deletestock: drop every match

  /** The "stocks" list after /deletestock name: the entries whose name differs up to case, in order. */
  function DeletedHoldings(s: seq<Holding>, name: string): (r: seq<Holding>)
    ensures |r| <= |s|
    ensures forall h :: h in r <==> h in s && !SameName(h.name, name)
  {
    if |s| == 0 then []
    else (if SameName(s[0].name, name) then [] else [s[0]]) + DeletedHoldings(s[1..], name)
  }

  /** Deleting distributes over concatenation: the survivors keep their relative order. */
  lemma {:induction false} DeletedHoldingsAppend(a: seq<Holding>, b: seq<Holding>, name: string)
    ensures DeletedHoldings(a + b, name) == DeletedHoldings(a, name) + DeletedHoldings(b, name)
  {
    if |a| > 0 {
      assert (a + b)[1..] == a[1..] + b;
      DeletedHoldingsAppend(a[1..], b, name);
    } else {
      assert a + b == b;
    }
  }

  /** With no match, deleting leaves the list as it is. */
  lemma {:induction false} DeletedHoldingsUnchanged(s: seq<Holding>, name: string)
    requires forall j :: 0 <= j < |s| ==> !SameName(s[j].name, name)
    ensures DeletedHoldings(s, name) == s
  {
    if |s| > 0 {
      DeletedHoldingsUnchanged(s[1..], name);
      assert [s[0]] + s[1..] == s;
    }
  }

  /** With a match at `k`, deleting shortens the list. */
  lemma {:induction false} DeletedHoldingsShrinks(s: seq<Holding>, name: string, k: nat)
    requires k < |s| && SameName(s[k].name, name)
    ensures |DeletedHoldings(s, name)| < |s|
  {
    if k > 0 {
      DeletedHoldingsShrinks(s[1..], name, k - 1);
    }
  }

  /** Nothing is removed (the "not found" reply) exactly when no entry matches; the list is then unchanged. */
  lemma DeletedHoldingsNotFound(s: seq<Holding>, name: string)
    ensures |DeletedHoldings(s, name)| == |s| <==> forall j :: 0 <= j < |s| ==> !SameName(s[j].name, name)
    ensures |DeletedHoldings(s, name)| == |s| ==> DeletedHoldings(s, name) == s
  {
    if forall j :: 0 <= j < |s| ==> !SameName(s[j].name, name) {
      DeletedHoldingsUnchanged(s, name);
    } else {
      var k :| 0 <= k < |s| && SameName(s[k].name, name);
      DeletedHoldingsShrinks(s, name, k);
    }
  }

  /** Deleting twice is deleting once. */
  lemma {:induction false} DeletedHoldingsIdempotent(s: seq<Holding>, name: string)
    ensures DeletedHoldings(DeletedHoldings(s, name), name) == DeletedHoldings(s, name)
  {
    var r := DeletedHoldings(s, name);
    DeletedHoldingsNotFound(r, name);
    assert forall j :: 0 <= j < |r| ==> r[j] in r;
  }

  /** Deleting an entry replaced by another with the same name yields the same list. */
  lemma {:induction false} DeletedHoldingsReplaced(s: seq<Holding>, k: nat, h: Holding, name: string)
    requires k < |s| && SameName(s[k].name, name) && SameName(h.name, name)
    ensures DeletedHoldings(s[k := h], name) == DeletedHoldings(s, name)
  {
    if k == 0 {
      assert s[k := h][1..] == s[1..];
    } else {
      assert s[k := h][1..] == s[1..][k - 1 := h];
      DeletedHoldingsReplaced(s[1..], k - 1, h, name);
    }
  }

  /** /deletestock after /addstock of the same name is /deletestock alone. */
  lemma DeleteUndoesUpsertHolding(s: seq<Holding>, name: string, qty: int, buyPrice: real)
    ensures DeletedHoldings(UpsertedHoldings(s, name, qty, buyPrice), name) == DeletedHoldings(s, name)
  {
    match FindName(HoldingNames(s), name)
    case Some(k) =>
      DeletedHoldingsReplaced(s, k, s[k].(qty := qty, buyPrice := buyPrice), name);
    case None =>
      DeletedHoldingsAppend(s, [Holding(name, qty, buyPrice)], name);
      assert DeletedHoldings([Holding(name, qty, buyPrice)], name) == [];
  }

  /** Dropping the first entry keeps names unique. */
  lemma UniqueHoldingsTail(s: seq<Holding>)
    requires |s| > 0 && UniqueNames(HoldingNames(s))
    ensures UniqueNames(HoldingNames(s[1..]))
  {
    assert HoldingNames(s[1..]) == HoldingNames(s)[1..];
    UniqueTail(HoldingNames(s));
  }

  /** Putting an entry whose name is new in front keeps names unique. */
  lemma UniqueHoldingsCons(x: Holding, t: seq<Holding>)
    requires UniqueNames(HoldingNames(t))
    requires forall j :: 0 <= j < |t| ==> !SameName(x.name, t[j].name)
    ensures UniqueNames(HoldingNames([x] + t))
  {
    assert HoldingNames([x] + t) == [x.name] + HoldingNames(t);
    UniqueCons(x.name, HoldingNames(t));
  }

  /** The survivors after the first entry never share its name, when names were unique. */
  lemma DeletedHoldingsFirstStaysUnique(s: seq<Holding>, name: string)
    requires |s| > 0 && UniqueNames(HoldingNames(s))
    ensures forall j :: 0 <= j < |DeletedHoldings(s[1..], name)| ==> !SameName(s[0].name, DeletedHoldings(s[1..], name)[j].name)
  {
    var tail := DeletedHoldings(s[1..], name);
    forall j | 0 <= j < |tail|
      ensures !SameName(s[0].name, tail[j].name)
    {
      assert tail[j] in s[1..];
      var m :| 0 <= m < |s| - 1 && s[1..][m] == tail[j];
      assert HoldingNames(s)[m + 1] == tail[j].name;
    }
  }

  /** /deletestock keeps names unique up to case. */
  lemma {:induction false} DeletedHoldingsKeepsUnique(s: seq<Holding>, name: string)
    requires UniqueNames(HoldingNames(s))
    ensures UniqueNames(HoldingNames(DeletedHoldings(s, name)))
  {
    if |s| > 0 {
      UniqueHoldingsTail(s);
      DeletedHoldingsKeepsUnique(s[1..], name);
      if !SameName(s[0].name, name) {
        DeletedHoldingsFirstStaysUnique(s, name);
        UniqueHoldingsCons(s[0], DeletedHoldings(s[1..], name));
      }
    }
  }

  // ---------------------------------------------------------------------------
  // /addsip: update the first match in place, otherwise append

  /** The "sip" list after /addsip name amount. */
  function UpsertedSips(s: seq<Sip>, name: string, amount: real): (r: seq<Sip>)
    ensures match FindName(SipNames(s), name)
      case Some(k) =>
        && |r| == |s|
        && r[k] == Sip(s[k].name, amount)
        && forall j :: 0 <= j < |s| && j != k ==> r[j] == s[j]
      case None => r == s + [Sip(name, amount)]
  {
    match FindName(SipNames(s), name)
    case Some(k) => s[k := s[k].(amount := amount)]
    case None => s + [Sip(name, amount)]
  }

  /** The `for ... break ... else append` loop of /addsip. */
  method UpsertSip(s: seq<Sip>, name: string, amount: real) returns (r: seq<Sip>)
    ensures r == UpsertedSips(s, name, amount)
  {
    var i := 0;
    while i < |s|
      invariant 0 <= i <= |s|
      invariant forall j :: 0 <= j < i ==> !SameName(s[j].name, name)
    {
      if Lower(s[i].name) == Lower(name) {
        FindNameAt(SipNames(s), name, i);
        r := s[i := s[i].(amount := amount)];
        return;
      }
      i := i + 1;
    }
    r := s + [Sip(name, amount)];
  }

  /** After /addsip the name is present, with the values just given. */
  lemma UpsertSipFinds(s: seq<Sip>, name: string, amount: real)
    ensures var r := UpsertedSips(s, name, amount);
      && FindName(SipNames(r), name).Some?
      && var k := FindName(SipNames(r), name).value;
         r[k].amount == amount
  {
    var r := UpsertedSips(s, name, amount);
    match FindName(SipNames(s), name)
    case Some(k) =>
      FindNameAt(SipNames(r), name, k);
    case None =>
      FindNameAt(SipNames(r), name, |s|);
  }

  /** A second /addsip for the same name (in any case) leaves one entry, with the latest values and the first stored name. */
  lemma UpsertSipLatestWins(s: seq<Sip>, n1: string, n2: string, a1: real, a2: real)
    requires SameName(n1, n2)
    ensures UpsertedSips(UpsertedSips(s, n1, a1), n2, a2) == UpsertedSips(s, n1, a2)
  {
    var r := UpsertedSips(s, n1, a1);
    match FindName(SipNames(s), n1)
    case Some(k) =>
      FindNameAt(SipNames(r), n2, k);
    case None =>
      FindNameAt(SipNames(r), n2, |s|);
  }

  /** The same /addsip command twice has the effect of once. */
  lemma UpsertSipIdempotent(s: seq<Sip>, name: string, amount: real)
    ensures var r := UpsertedSips(s, name, amount);
      UpsertedSips(r, name, amount) == r
  {
    UpsertSipLatestWins(s, name, name, amount, amount);
  }

  /** /addsip keeps names unique up to case. */
  lemma UpsertSipKeepsUnique(s: seq<Sip>, name: string, amount: real)
    requires UniqueNames(SipNames(s))
    ensures UniqueNames(SipNames(UpsertedSips(s, name, amount)))
  {
    var r := UpsertedSips(s, name, amount);
    assert forall i :: 0 <= i < |s| ==> r[i].name == s[i].name;
  }

  // ---------------------------------------------------------------------------
  // /deletesip: drop every match

  /** The "sip" list after /deletesip name: the entries whose name differs up to case, in order. */
  function DeletedSips(s: seq<Sip>, name: string): (r: seq<Sip>)
    ensures |r| <= |s|
    ensures forall h :: h in r <==> h in s && !SameName(h.name, name)
  {
    if |s| == 0 then []
    else (if SameName(s[0].name, name) then [] else [s[0]]) + DeletedSips(s[1..], name)
  }

  /** Deleting distributes over concatenation: the survivors keep their relative order. */
  lemma {:induction false} DeletedSipsAppend(a: seq<Sip>, b: seq<Sip>, name: string)
    ensures DeletedSips(a + b, name) == DeletedSips(a, name) + DeletedSips(b, name)
  {
    if |a| > 0 {
      assert (a + b)[1..] == a[1..] + b;
      DeletedSipsAppend(a[1..], b, name);
    } else {
      assert a + b == b;
    }
  }

  /** With no match, deleting leaves the list as it is. */
  lemma {:induction false} DeletedSipsUnchanged(s: seq<Sip>, name: string)
    requires forall j :: 0 <= j < |s| ==> !SameName(s[j].name, name)
    ensures DeletedSips(s, name) == s
  {
    if |s| > 0 {
      DeletedSipsUnchanged(s[1..], name);
      assert [s[0]] + s[1..] == s;
    }
  }

  /** With a match at `k`, deleting shortens the list. */
  lemma {:induction false} DeletedSipsShrinks(s: seq<Sip>, name: string, k: nat)
    requires k < |s| && SameName(s[k].name, name)
    ensures |DeletedSips(s, name)| < |s|
  {
    if k > 0 {
      DeletedSipsShrinks(s[1..], name, k - 1);
    }
  }

  /** Nothing is removed (the "not found" reply) exactly when no entry matches; the list is then unchanged. */
  lemma DeletedSipsNotFound(s: seq<Sip>, name: string)
    ensures |DeletedSips(s, name)| == |s| <==> forall j :: 0 <= j < |s| ==> !SameName(s[j].name, name)
    ensures |DeletedSips(s, name)| == |s| ==> DeletedSips(s, name) == s
  {
    if forall j :: 0 <= j < |s| ==> !SameName(s[j].name, name) {
      DeletedSipsUnchanged(s, name);
    } else {
      var k :| 0 <= k < |s| && SameName(s[k].name, name);
      DeletedSipsShrinks(s, name, k);
    }
  }

  /** Deleting twice is deleting once. */
  lemma {:induction false} DeletedSipsIdempotent(s: seq<Sip>, name: string)
    ensures DeletedSips(DeletedSips(s, name), name) == DeletedSips(s, name)
  {
    var r := DeletedSips(s, name);
    DeletedSipsNotFound(r, name);
    assert forall j :: 0 <= j < |r| ==> r[j] in r;
  }

  /** Deleting an entry replaced by another with the same name yields the same list. */
  lemma {:induction false} DeletedSipsReplaced(s: seq<Sip>, k: nat, h: Sip, name: string)
    requires k < |s| && SameName(s[k].name, name) && SameName(h.name, name)
    ensures DeletedSips(s[k := h], name) == DeletedSips(s, name)
  {
    if k == 0 {
      assert s[k := h][1..] == s[1..];
    } else {
      assert s[k := h][1..] == s[1..][k - 1 := h];
      DeletedSipsReplaced(s[1..], k - 1, h, name);
    }
  }

  /** /deletesip after /addsip of the same name is /deletesip alone. */
  lemma DeleteUndoesUpsertSip(s: seq<Sip>, name: string, amount: real)
    ensures DeletedSips(UpsertedSips(s, name, amount), name) == DeletedSips(s, name)
  {
    match FindName(SipNames(s), name)
    case Some(k) =>
      DeletedSipsReplaced(s, k, s[k].(amount := amount), name);
    case None =>
      DeletedSipsAppend(s, [Sip(name, amount)], name);
      assert DeletedSips([Sip(name, amount)], name) == [];
  }

  /** Dropping the first entry keeps names unique. */
  lemma UniqueSipsTail(s: seq<Sip>)
    requires |s| > 0 && UniqueNames(SipNames(s))
    ensures UniqueNames(SipNames(s[1..]))
  {
    assert SipNames(s[1..]) == SipNames(s)[1..];
    UniqueTail(SipNames(s));
  }

  /** Putting an entry whose name is new in front keeps names unique. */
  lemma UniqueSipsCons(x: Sip, t: seq<Sip>)
    requires UniqueNames(SipNames(t))
    requires forall j :: 0 <= j < |t| ==> !SameName(x.name, t[j].name)
    ensures UniqueNames(SipNames([x] + t))
  {
    assert SipNames([x] + t) == [x.name] + SipNames(t);
    UniqueCons(x.name, SipNames(t));
  }

  /** The survivors after the first entry never share its name, when names were unique. */
  lemma DeletedSipsFirstStaysUnique(s: seq<Sip>, name: string)
    requires |s| > 0 && UniqueNames(SipNames(s))
    ensures forall j :: 0 <= j < |DeletedSips(s[1..], name)| ==> !SameName(s[0].name, DeletedSips(s[1..], name)[j].name)
  {
    var tail := DeletedSips(s[1..], name);
    forall j | 0 <= j < |tail|
      ensures !SameName(s[0].name, tail[j].name)
    {
      assert tail[j] in s[1..];
      var m :| 0 <= m < |s| - 1 && s[1..][m] == tail[j];
      assert SipNames(s)[m + 1] == tail[j].name;
    }
  }

  /** /deletesip keeps names unique up to case. */
  lemma {:induction false} DeletedSipsKeepsUnique(s: seq<Sip>, name: string)
    requires UniqueNames(SipNames(s))
    ensures UniqueNames(SipNames(DeletedSips(s, name)))
  {
    if |s| > 0 {
      UniqueSipsTail(s);
      DeletedSipsKeepsUnique(s[1..], name);
      if !SameName(s[0].name, name) {
        DeletedSipsFirstStaysUnique(s, name);
        UniqueSipsCons(s[0], DeletedSips(s[1..], name));
      }
    }
  }
}
