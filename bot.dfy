/**
 * The command handlers over the portfolio file. Each handler splits the
 * message text, checks the argument count and parses the numbers before it
 * loads the file; only a successful add, or a delete that removed something,
 * saves it.
 */
module Bot {
  import opened Wrappers
  import opened Text
  import opened Store
  import opened Valuation
  import opened Schedule

  /** The kind of reply a handler sends. */
  datatype Reply =
    | Done      // "Added/Updated ..." or "Deleted ..."
    | Usage     // wrong number of arguments
    | Failed    // an exception caught by the handler, e.g. a number that does not parse
    | NotFound  // a delete that matched nothing

  /** `int(s)` and `float(s)`: a value, or None where Python raises ValueError. */
  type IntParser = string -> Option<int>
  type RealParser = string -> Option<real>

  /** `message.text.split()[1:]`: the words after the command. */
  function Args(text: string): (args: seq<string>)
    ensures forall k :: 0 <= k < |args| ==> IsWord(args[k])
  {
    var tokens := Split(text);
    if |tokens| == 0 then [] else tokens[1..]
  }

  /**
   * A command typed as words with separators around them yields exactly the
   * words after the command as arguments, whatever the spacing: leading,
   * trailing or repeated separators, tabs and newlines change nothing.
   */
  lemma CommandArgsSpaced(gs: seq<string>, command: string, args: seq<string>)
    requires |gs| == |args| + 2
    requires IsWord(command)
    requires forall k :: 0 <= k < |args| ==> IsWord(args[k])
    requires forall k :: 0 <= k < |gs| ==> IsGap(gs[k])
    requires forall k :: 0 < k <= |args| ==> |gs[k]| > 0
    ensures Args(Interleave(gs, [command] + args)) == args
  {
    var ws := [command] + args;
    assert forall k :: 0 < k < |ws| ==> ws[k] == args[k - 1];
    SplitInterleave(gs, ws);
    assert ws[1..] == args;
  }

  /** The file portfolio.json, which every handler loads and saves as a whole. */
  class PortfolioFile {
    /** The document in the file; None when the file is missing or does not parse. */
    var stored: Option<Snapshot>

    constructor (initial: Option<Snapshot>)
      ensures stored == initial
    {
      stored := initial;
    }

    /** `load_portfolio`: a missing or unreadable file reads as the empty document. */
    function Load(): (doc: Snapshot)
      reads this
      ensures stored.None? ==> doc == EmptySnapshot()
      ensures stored.Some? ==> doc == stored.value
    {
      stored.GetOr(EmptySnapshot())
    }

    /** `save_portfolio`: the whole document replaces the file. */
    method Save(doc: Snapshot)
      modifies this
      ensures stored == Some(doc) && Load() == doc
    {
      stored := Some(doc);
    }

    /** /addstock name qty buyprice */
    method AddStock(text: string, parseInt: IntParser, parseReal: RealParser) returns (reply: Reply)
      modifies this
      ensures var args := Args(text);
        |args| != 3 ==> reply == Usage && stored == old(stored)
      ensures var args := Args(text);
        |args| == 3 && (parseInt(args[1]).None? || parseReal(args[2]).None?) ==>
          reply == Failed && stored == old(stored)
      ensures var args := Args(text);
        |args| == 3 && parseInt(args[1]).Some? && parseReal(args[2]).Some? ==>
          && reply == Done
          && stored == Some(old(Load()).(stocks := UpsertedHoldings(
               old(Load()).stocks, args[0], parseInt(args[1]).value, parseReal(args[2]).value)))
    {
      var args := Args(text);
      if |args| != 3 {
        return Usage;
      }
      var name := args[0];
      var qty := parseInt(args[1]);
      if qty.None? {
        return Failed;
      }
      var buyPrice := parseReal(args[2]);
      if buyPrice.None? {
        return Failed;
      }
      var doc := Load();
      var stocks := UpsertHolding(doc.stocks, name, qty.value, buyPrice.value);
      Save(doc.(stocks := stocks));
      reply := Done;
    }

    /** /deletestock name */
    method DeleteStock(text: string) returns (reply: Reply)
      modifies this
      ensures var args := Args(text);
        |args| != 1 ==> reply == Usage && stored == old(stored)
      ensures var args := Args(text);
        |args| == 1 ==>
          var before := old(Load()).stocks;
          var after := DeletedHoldings(before, args[0]);
          && (|after| == |before| ==> reply == NotFound && stored == old(stored))
          && (|after| != |before| ==> reply == Done && stored == Some(old(Load()).(stocks := after)))
    {
      var args := Args(text);
      if |args| != 1 {
        return Usage;
      }
      var name := args[0];
      var doc := Load();
      var before := |doc.stocks|;
      var stocks := DeletedHoldings(doc.stocks, name);
      if before == |stocks| {
        return NotFound;
      }
      Save(doc.(stocks := stocks));
      reply := Done;
    }

    /** /addsip name amount; it never changes any day's reminders. */
    method AddSip(text: string, parseReal: RealParser) returns (reply: Reply)
      modifies this
      ensures var args := Args(text);
        |args| != 2 ==> reply == Usage && stored == old(stored)
      ensures var args := Args(text);
        |args| == 2 && parseReal(args[1]).None? ==> reply == Failed && stored == old(stored)
      ensures var args := Args(text);
        |args| == 2 && parseReal(args[1]).Some? ==>
          && reply == Done
          && stored == Some(old(Load()).(sip := UpsertedSips(old(Load()).sip, args[0], parseReal(args[1]).value)))
      ensures forall day :: Reminders(day, Load().sip) == Reminders(day, old(Load()).sip)
    {
      var args := Args(text);
      if |args| != 2 {
        return Usage;
      }
      var name := args[0];
      var amount := parseReal(args[1]);
      if amount.None? {
        return Failed;
      }
      var doc := Load();
      var sips := UpsertSip(doc.sip, name, amount.value);
      forall day: int ensures Reminders(day, sips) == Reminders(day, doc.sip) {
        AddSipKeepsReminders(doc.sip, name, amount.value, day);
      }
      Save(doc.(sip := sips));
      reply := Done;
    }

    /** /deletesip name; it never removes a plan that some day reminds about. */
    method DeleteSip(text: string) returns (reply: Reply)
      modifies this
      ensures var args := Args(text);
        |args| != 1 ==> reply == Usage && stored == old(stored)
      ensures var args := Args(text);
        |args| == 1 ==>
          var before := old(Load()).sip;
          var after := DeletedSips(before, args[0]);
          && (|after| == |before| ==> reply == NotFound && stored == old(stored))
          && (|after| != |before| ==> reply == Done && stored == Some(old(Load()).(sip := after)))
      ensures forall day :: Reminders(day, Load().sip) == Reminders(day, old(Load()).sip)
    {
      var args := Args(text);
      if |args| != 1 {
        return Usage;
      }
      var name := args[0];
      var doc := Load();
      var before := |doc.sip|;
      var sips := DeletedSips(doc.sip, name);
      if before == |sips| {
        return NotFound;
      }
      forall day: int ensures Reminders(day, sips) == Reminders(day, doc.sip) {
        DeleteSipKeepsReminders(doc.sip, name, day);
      }
      Save(doc.(sip := sips));
      reply := Done;
    }

    /** /portfolio: value the loaded document; Err is the "Failed to load portfolio" reply. */
    method Portfolio(price: PriceOracle) returns (r: Result<Report, Failure>)
      ensures r.Err? <==> Faults(Load().stocks, price)
      ensures r.Ok? ==>
        && r.value.sips == Load().sip
        && r.value.invested == TotalInvested(Load().stocks)
        && r.value.current == TotalCurrent(Load().stocks, price)
        && (r.value.up <==> r.value.current >= r.value.invested)
    {
      r := Valuate(Load(), price);
    }

    /** The scheduled `job` on a given day of the month. */
    method Job(day: int) returns (sent: seq<Reminder>)
      ensures sent == Reminders(day, Load().sip)
    {
      sent := Schedule.Job(day, Load().sip);
    }
  }
}
