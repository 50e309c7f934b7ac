/**
 * The older scan screen (MainActivity): the same gate, candidate filter and
 * lookup handling as the scan fragment, but its confirm button saves nothing.
 */
module MainScreen {
  import opened Scanner

  class MainActivity {
    /** The gate: a lookup or its dialog is in progress. */
    var isProcessing: bool
    /** The status line under the camera preview. */
    var status: string
    /** Codes of the lookups issued and not yet finished, in issue order. */
    var pending: seq<string>
    /** Dialogs shown and not yet answered, in opening order. */
    var dialogs: seq<BookDialog>

    ghost predicate SingleFlight()
      reads this
    {
      |pending| + |dialogs| <= 1 && (isProcessing <==> |pending| + |dialogs| == 1)
    }

    /** `onCreate`; the camera is bound elsewhere. */
    constructor ()
      ensures SingleFlight()
      ensures !isProcessing && status == IdlePrompt && pending == [] && dialogs == []
    {
      isProcessing := false;
      status := IdlePrompt;
      pending := [];
      dialogs := [];
    }

    /** `fetchBookInfo`: closes the gate, shows the searching message and issues the query. */
    method FetchBookInfo(code: string) returns (query: string)
      modifies this
      ensures query == Query(code)
      ensures isProcessing && status == SearchingMessage(code)
      ensures pending == old(pending) + [code] && dialogs == old(dialogs)
    {
      isProcessing := true;
      status := SearchingMessage(code);
      pending := pending + [code];
      query := Query(code);
    }

    /**
     * `processImageProxy` with the decoder's output for the frame: dropped
     * without an image or while the gate is closed, otherwise one lookup per
     * qualifying barcode.
     */
    method OnFrame(hasImage: bool, barcodes: seq<Barcode>) returns (queries: seq<string>)
      modifies this
      ensures !hasImage || old(isProcessing) ==>
        queries == [] && isProcessing == old(isProcessing) && status == old(status)
        && pending == old(pending) && dialogs == old(dialogs)
      ensures hasImage && !old(isProcessing) ==>
        && pending == old(pending) + Candidates(barcodes)
        && queries == Queries(Candidates(barcodes))
        && isProcessing == (Candidates(barcodes) != [])
        && status == StatusAfterFrame(old(status), Candidates(barcodes))
        && dialogs == old(dialogs)
      ensures old(SingleFlight()) && |Candidates(barcodes)| <= 1 ==> SingleFlight()
    {
      queries := [];
      if hasImage && !isProcessing {
        queries := StartLookups(barcodes);
      }
    }

    /** The barcode loop of a frame that passed the gate: one lookup per qualifying barcode. */
    method StartLookups(barcodes: seq<Barcode>) returns (queries: seq<string>)
      requires !isProcessing
      modifies this
      ensures pending == old(pending) + Candidates(barcodes)
      ensures queries == Queries(Candidates(barcodes))
      ensures isProcessing == (Candidates(barcodes) != [])
      ensures status == StatusAfterFrame(old(status), Candidates(barcodes))
      ensures dialogs == old(dialogs)
    {
      queries := [];
      var i := 0;
      ghost var started: seq<string> := [];
      while i < |barcodes|
        invariant 0 <= i <= |barcodes|
        invariant started == Candidates(barcodes[..i])
        invariant pending == old(pending) + started
        invariant queries == Queries(started)
        invariant isProcessing == (started != [])
        invariant status == StatusAfterFrame(old(status), started)
        invariant dialogs == old(dialogs)
      {
        CandidatesStep(barcodes, i);
        var c := Candidate(barcodes[i]);
        if c.Some? {
          var q := FetchBookInfo(c.value);
          AppendAssoc(old(pending), started, [c.value]);
          QueriesSnoc(started, c.value);
          StatusAfterFrameSnoc(old(status), started, c.value);
          queries := queries + [q];
          started := started + [c.value];
        }
        assert started == Candidates(barcodes[..i + 1]);
        i := i + 1;
      }
      assert barcodes[..i] == barcodes;
    }

    /** The lookup issued for `pending[k]` finishes with `outcome`. */
    method OnLookupResult(k: nat, outcome: LookupOutcome)
      requires k < |pending|
      modifies this
      ensures pending == old(pending[..k] + pending[k + 1..])
      ensures match Resolve(old(pending[k]), outcome)
        case ShowDialog(v) =>
          dialogs == old(dialogs) + [DialogOf(v)] && isProcessing == old(isProcessing) && status == old(status)
        case Report(message) =>
          dialogs == old(dialogs) && !isProcessing && status == message
      ensures old(SingleFlight()) ==> SingleFlight()
    {
      var code := pending[k];
      pending := pending[..k] + pending[k + 1..];
      match Resolve(code, outcome) {
        case ShowDialog(v) =>
          dialogs := dialogs + [DialogOf(v)];
        case Report(message) =>
          status := message;
          isProcessing := false;
      }
    }

    /**
     * The add-to-favourites button of dialog `k`: announces success without
     * saving anything, closes the dialog, opens the gate, restores the idle prompt.
     */
    method Confirm(k: nat) returns (toast: string)
      requires k < |dialogs|
      modifies this
      ensures toast == Added
      ensures dialogs == old(dialogs[..k] + dialogs[k + 1..]) && pending == old(pending)
      ensures !isProcessing && status == IdlePrompt
      ensures old(SingleFlight()) ==> SingleFlight()
    {
      toast := Added;
      dialogs := dialogs[..k] + dialogs[k + 1..];
      isProcessing := false;
      status := IdlePrompt;
    }

    /** The cancel button of dialog `k`: closes it, opens the gate, restores the idle prompt. */
    method Cancel(k: nat)
      requires k < |dialogs|
      modifies this
      ensures dialogs == old(dialogs[..k] + dialogs[k + 1..]) && pending == old(pending)
      ensures !isProcessing && status == IdlePrompt
      ensures old(SingleFlight()) ==> SingleFlight()
    {
      dialogs := dialogs[..k] + dialogs[k + 1..];
      isProcessing := false;
      status := IdlePrompt;
    }

    /**
     * Back, or a tap outside dialog `k`: the dialog is cancelable and has no
     * cancel or dismiss listener, so it closes without running either
     * button's listener. Nothing opens the gate or restores the prompt.
     */
    method Dismiss(k: nat)
      requires k < |dialogs|
      modifies this
      ensures dialogs == old(dialogs[..k] + dialogs[k + 1..]) && pending == old(pending)
      ensures isProcessing == old(isProcessing) && status == old(status)
    {
      dialogs := dialogs[..k] + dialogs[k + 1..];
    }
  }
}
