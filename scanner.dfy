/**
 * The scan screen (ScannerFragment): the `isProcessing` gate, the barcode
 * candidate filter, the book lookup and its outcomes, the confirmation dialog
 * and what confirming or cancelling it does to the favourites store.
 *
 * Events arrive one at a time: a decoded camera frame, the completion of one
 * outstanding lookup, and the user's choice on one open dialog.
 */
module Scanner {
  import opened Wrappers
  import opened Text
  import opened GoogleBooks
  import opened Books
  import Database

  /** The decoder's value types the app distinguishes; every other type is `TypeOther`. */
  datatype BarcodeType = TypeIsbn | TypeText | TypeProduct | TypeOther

  /** One barcode of a decoded frame: its value type and raw value, possibly null. */
  datatype Barcode = Barcode(valueType: BarcodeType, rawValue: Option<string>)

  /** How a lookup ends: a response from the catalogue, or an exception with its message. */
  datatype LookupOutcome = Response(response: GoogleBooksResponse) | Failed(message: Option<string>)

  /** What the app does with a finished lookup: open a dialog, or report on the status line. */
  datatype Resolution = ShowDialog(volume: VolumeInfo) | Report(status: string)

  /** The texts of the confirmation dialog and the two values it keeps for saving. */
  datatype BookDialog = BookDialog(
    titulo: string,
    autor: string,
    ano: string,
    descricao: string,
    isbn: Option<string>,
    capaUrl: Option<string>)

  const IdlePrompt: string := "Aponte para um código de barras ISBN"
  const AlreadySaved: string := "Este livro já está nos favoritos!"
  const Added: string := "Livro adicionado aos favoritos!"

  function SearchingMessage(code: string): string {
    "A procurar livro com ISBN: " + code + "..."
  }

  function NotFoundMessage(code: string): string {
    "Livro não encontrado para ISBN: " + code
  }

  /** Kotlin string interpolation writes a null message as "null". */
  function ErrorMessage(message: Option<string>): string {
    "Erro ao procurar livro: " + message.GetOr("null")
  }

  /** The catalogue query for a code; the code is recovered from it unchanged. */
  function Query(code: string): (q: string)
    ensures |q| == |code| + 5 && q[..5] == "isbn:" && q[5..] == code
  {
    "isbn:" + code
  }

  /** A raw value 10 or 13 UTF-16 code units long, the lengths of ISBN-10 and ISBN-13. */
  predicate IsbnLength(s: string) {
    Utf16Length(s) == 10 || Utf16Length(s) == 13
  }

  /**
   * The code a barcode hands to a lookup. ISBN-typed barcodes qualify at any
   * length; text and product barcodes only with exactly 10 or 13 UTF-16
   * code units (Kotlin's `length`); no check digit is examined.
   */
  function Candidate(b: Barcode): (c: Option<string>)
    ensures c.Some? <==>
      && b.rawValue.Some?
      && (|| b.valueType == TypeIsbn
          || ((b.valueType == TypeText || b.valueType == TypeProduct) && IsbnLength(b.rawValue.value)))
    ensures c.Some? ==> c == b.rawValue
  {
    match b.valueType
    case TypeIsbn => b.rawValue
    case TypeText | TypeProduct =>
      if b.rawValue.Some? && IsbnLength(b.rawValue.value)
      then b.rawValue else None
    case TypeOther => None
  }

  /** The catalogue queries for a list of codes, one per code, in order. */
  function Queries(cs: seq<string>): (qs: seq<string>)
    ensures |qs| == |cs|
    ensures forall k :: 0 <= k < |cs| ==> qs[k] == Query(cs[k])
  {
    if cs == [] then []
    else
      var init := cs[..|cs| - 1];
      assert forall k :: 0 <= k < |init| ==> init[k] == cs[k];
      Queries(init) + [Query(cs[|cs| - 1])]
  }

  lemma AppendAssoc<T>(a: seq<T>, b: seq<T>, c: seq<T>)
    ensures (a + b) + c == a + (b + c)
  {
  }

  lemma QueriesSnoc(cs: seq<string>, c: string)
    ensures Queries(cs + [c]) == Queries(cs) + [Query(c)]
  {
    assert (cs + [c])[..|cs|] == cs;
  }

  /** The lookup a single barcode starts: none, or one for its code. */
  function Codes(b: Barcode): seq<string> {
    match Candidate(b) case Some(c) => [c] case None => []
  }

  /** The codes a frame's barcode loop hands to lookups, in frame order. */
  function Candidates(bs: seq<Barcode>): (cs: seq<string>)
    ensures |cs| <= |bs|
  {
    if bs == [] then [] else Candidates(bs[..|bs| - 1]) + Codes(bs[|bs| - 1])
  }

  /** Every code a frame hands to a lookup is the candidate of one of its barcodes. */
  lemma {:induction false} CandidatesFromFrame(bs: seq<Barcode>)
    ensures forall c :: c in Candidates(bs) ==> exists i :: 0 <= i < |bs| && Candidate(bs[i]) == Some(c)
  {
    if bs != [] {
      var init := bs[..|bs| - 1];
      CandidatesFromFrame(init);
      assert forall i :: 0 <= i < |init| ==> init[i] == bs[i];
    }
  }

  /** One more barcode of the frame adds its own code, if any, at the end. */
  lemma CandidatesStep(bs: seq<Barcode>, i: nat)
    requires i < |bs|
    ensures Candidate(bs[i]).None? ==> Candidates(bs[..i + 1]) == Candidates(bs[..i])
    ensures Candidate(bs[i]).Some? ==> Candidates(bs[..i + 1]) == Candidates(bs[..i]) + [Candidate(bs[i]).value]
  {
    assert bs[..i + 1][..i] == bs[..i];
  }

  lemma {:induction false} CandidatesConcat(a: seq<Barcode>, b: seq<Barcode>)
    ensures Candidates(a + b) == Candidates(a) + Candidates(b)
  {
    if b != [] {
      var init := b[..|b| - 1];
      assert (a + b)[..|a + b| - 1] == a + init;
      CandidatesConcat(a, init);
    } else {
      assert a + b == a;
    }
  }

  /**
   * The gate is checked once per frame, not per barcode: every qualifying
   * barcode of one frame starts its own lookup, so two of them start two.
   */
  lemma TwoQualifyingBarcodesTwoLookups(bs: seq<Barcode>, i: nat, j: nat)
    requires i < j < |bs|
    requires Candidate(bs[i]).Some? && Candidate(bs[j]).Some?
    ensures |Candidates(bs)| >= 2
    ensures Candidate(bs[i]).value in Candidates(bs) && Candidate(bs[j]).value in Candidates(bs)
  {
    var a, m, z := bs[..i], bs[i + 1..j], bs[j + 1..];
    assert bs == a + [bs[i]] + m + [bs[j]] + z;
    CandidatesConcat(a + [bs[i]] + m + [bs[j]], z);
    CandidatesConcat(a + [bs[i]] + m, [bs[j]]);
    CandidatesConcat(a + [bs[i]], m);
    CandidatesConcat(a, [bs[i]]);
    assert Candidates([bs[i]]) == [Candidate(bs[i]).value] by {
      assert [bs[i]][..0] == [];
    }
    assert Candidates([bs[j]]) == [Candidate(bs[j]).value] by {
      assert [bs[j]][..0] == [];
    }
  }

  /** The searching message of the last lookup a frame starts, if it starts any. */
  function StatusAfterFrame(status: string, cs: seq<string>): string {
    if cs == [] then status else SearchingMessage(cs[|cs| - 1])
  }

  lemma StatusAfterFrameSnoc(status: string, cs: seq<string>, c: string)
    ensures StatusAfterFrame(status, cs + [c]) == SearchingMessage(c)
  {
    assert (cs + [c])[|cs + [c]| - 1] == c;
  }

  /**
   * Only the first item of a non-empty response is shown; a null or empty
   * item list reports "not found" for the code; an exception reports its message.
   */
  function Resolve(code: string, outcome: LookupOutcome): (r: Resolution)
    ensures r.ShowDialog? <==>
      outcome.Response? && outcome.response.items.Some? && |outcome.response.items.value| > 0
    ensures r.ShowDialog? ==> r.volume == outcome.response.items.value[0].volumeInfo
    ensures outcome.Failed? ==> r == Report(ErrorMessage(outcome.message))
    ensures outcome.Response? && !r.ShowDialog? ==> r == Report(NotFoundMessage(code))
  {
    match outcome
    case Response(response) =>
      if response.items.Some? && |response.items.value| > 0 then ShowDialog(response.items.value[0].volumeInfo)
      else Report(NotFoundMessage(code))
    case Failed(message) => Report(ErrorMessage(message))
  }

  /** `thumbnail?.replace("http://", "https://")`. */
  function CoverUrl(v: VolumeInfo): Option<string> {
    match v.imageLinks
    case Some(links) =>
      (match links.thumbnail
       case Some(t) => Some(ReplaceAll(t, "http://", "https://"))
       case None => None)
    case None => None
  }

  /** `industryIdentifiers?.firstOrNull()?.identifier`. */
  function FirstIdentifier(v: VolumeInfo): Option<string> {
    match v.industryIdentifiers
    case Some(ids) => if ids == [] then None else ids[0].identifier
    case None => None
  }

  /** What `showBookDialog` derives from a volume before showing it. */
  function DialogOf(v: VolumeInfo): BookDialog {
    BookDialog(
      v.title.GetOr(UnknownTitle),
      match v.authors case Some(names) => JoinToString(names, ", ") case None => UnknownAuthor,
      v.publishedDate.GetOr(UnknownYear),
      v.description.GetOr(NoDescription),
      FirstIdentifier(v),
      CoverUrl(v))
  }

  /** The book the confirm button saves, created at time `now`; the store assigns its id. */
  function ToBook(d: BookDialog, now: int): Book {
    Book(0, d.isbn, d.titulo, Some(d.autor), Some(d.ano), d.capaUrl, Some(d.descricao), now)
  }

  /** A saved cover URL never uses plain http. */
  lemma CoverIsHttps(v: VolumeInfo)
    ensures CoverUrl(v).Some? ==> !Occurs(CoverUrl(v).value, "http://")
  {
    if CoverUrl(v).Some? {
      HttpsUpgradeComplete(v.imageLinks.value.thumbnail.value);
    }
  }

  /** A cover URL without "http://" (an https one, say) is kept as it is. */
  lemma CoverKeptWithoutHttp(v: VolumeInfo)
    requires v.imageLinks.Some? && v.imageLinks.value.thumbnail.Some?
    requires !Occurs(v.imageLinks.value.thumbnail.value, "http://")
    ensures CoverUrl(v) == v.imageLinks.value.thumbnail
  {
    ReplaceWithoutOccurrence(v.imageLinks.value.thumbnail.value, "http://", "https://");
  }

  /**
   * The saved book carries the dialog's texts, with placeholders for what the
   * volume lacks, the first identifier as its ISBN, the authors joined with
   * ", " (so with every name and one separator between neighbours), and the
   * confirmation time.
   */
  lemma MappedBook(v: VolumeInfo, now: int)
    ensures var b := ToBook(DialogOf(v), now);
      && b.id == 0 && b.dataAdicionado == now
      && b.titulo == (if v.title.Some? then v.title.value else UnknownTitle)
      && b.ano == Some(if v.publishedDate.Some? then v.publishedDate.value else UnknownYear)
      && b.descricao == Some(if v.description.Some? then v.description.value else NoDescription)
      && (v.authors.None? ==> b.autor == Some(UnknownAuthor))
      && (v.authors.Some? ==> b.autor == Some(JoinToString(v.authors.value, ", ")))
      && (v.authors == Some([]) ==> b.autor == Some(""))
      && (v.authors.Some? && v.authors.value != [] ==>
            |b.autor.value| == TotalLength(v.authors.value) + (|v.authors.value| - 1) * 2
            && forall k :: 0 <= k < |v.authors.value| ==>
                 OccursAt(b.autor.value, ElementOffset(v.authors.value, ", ", k), v.authors.value[k]))
      && (v.industryIdentifiers.Some? && v.industryIdentifiers.value != [] ==>
            b.isbn == v.industryIdentifiers.value[0].identifier)
      && (v.industryIdentifiers.None? || v.industryIdentifiers.value == [] ==> b.isbn.None?)
  {
    if v.authors.Some? {
      JoinLength(v.authors.value, ", ");
      forall k | 0 <= k < |v.authors.value| {
        JoinElementAt(v.authors.value, ", ", k);
      }
    }
  }

  /**
   * The 10-or-13 test counts UTF-16 units: eight characters of the Basic
   * Multilingual Plane followed by one outside it (an emoji, say) are nine
   * characters but ten units, so the text barcode qualifies.
   */
  lemma AstralCharacterCountsTwice(prefix: string, c: char)
    requires |prefix| == 8 && forall i :: 0 <= i < |prefix| ==> prefix[i] as int < 0x1_0000
    requires c as int >= 0x1_0000
    ensures var raw := prefix + [c];
      |raw| == 9 && Candidate(Barcode(TypeText, Some(raw))) == Some(raw)
  {
    Utf16LengthAppend(prefix, [c]);
    Utf16LengthBmp(prefix);
    assert Utf16Length([c]) == 2 by {
      assert [c][1..] == [];
    }
  }

  class ScannerFragment {
    /** The favourites store this screen writes to. */
    const db: Database.DatabaseHelper
    /** The gate: a lookup or its dialog is in progress. */
    var isProcessing: bool
    /** The status line under the camera preview. */
    var status: string
    /** Codes of the lookups issued and not yet finished, in issue order. */
    var pending: seq<string>
    /** Confirmation dialogs shown and not yet answered, in opening order. */
    var dialogs: seq<BookDialog>

    ghost predicate Valid()
      reads this, db
    {
      db.Valid()
    }

    /**
     * What the `isProcessing` gate is meant to keep: at most one lookup or dialog is
     * outstanding, and the gate is closed exactly while one is.
     */
    ghost predicate SingleFlight()
      reads this
    {
      |pending| + |dialogs| <= 1 && (isProcessing <==> |pending| + |dialogs| == 1)
    }

    /** `onViewCreated`; the camera is bound elsewhere. */
    constructor (db: Database.DatabaseHelper)
      requires db.Valid()
      ensures Valid() && SingleFlight()
      ensures this.db == db && !isProcessing && status == IdlePrompt && pending == [] && dialogs == []
    {
      this.db := db;
      isProcessing := false;
      status := IdlePrompt;
      pending := [];
      dialogs := [];
    }

    /** `fetchBookInfo`: closes the gate, shows the searching message and issues the query. */
    method FetchBookInfo(code: string) returns (query: string)
      modifies this
      ensures query == Query(code)
      ensures isProcessing && status == SearchingMessage(code)
      ensures pending == old(pending) + [code] && dialogs == old(dialogs)
    {
      isProcessing := true;
      status := SearchingMessage(code);
      pending := pending + [code];
      query := Query(code);
    }

    /**
     * `processImageProxy` with the decoder's output for the frame. A frame
     * without an image, or one that arrives while the gate is closed, is
     * dropped. Otherwise every qualifying barcode starts a lookup: the gate
     * is not consulted again inside the loop.
     */
    method OnFrame(hasImage: bool, barcodes: seq<Barcode>) returns (queries: seq<string>)
      modifies this
      ensures !hasImage || old(isProcessing) ==>
        queries == [] && isProcessing == old(isProcessing) && status == old(status)
        && pending == old(pending) && dialogs == old(dialogs)
      ensures hasImage && !old(isProcessing) ==>
        && pending == old(pending) + Candidates(barcodes)
        && queries == Queries(Candidates(barcodes))
        && isProcessing == (Candidates(barcodes) != [])
        && status == StatusAfterFrame(old(status), Candidates(barcodes))
        && dialogs == old(dialogs)
      ensures old(SingleFlight()) && |Candidates(barcodes)| <= 1 ==> SingleFlight()
    {
      queries := [];
      if hasImage && !isProcessing {
        queries := StartLookups(barcodes);
      }
    }

    /** The barcode loop of a frame that passed the gate: one lookup per qualifying barcode. */
    method StartLookups(barcodes: seq<Barcode>) returns (queries: seq<string>)
      requires !isProcessing
      modifies this
      ensures pending == old(pending) + Candidates(barcodes)
      ensures queries == Queries(Candidates(barcodes))
      ensures isProcessing == (Candidates(barcodes) != [])
      ensures status == StatusAfterFrame(old(status), Candidates(barcodes))
      ensures dialogs == old(dialogs)
    {
      queries := [];
      var i := 0;
      ghost var started: seq<string> := [];
      while i < |barcodes|
        invariant 0 <= i <= |barcodes|
        invariant started == Candidates(barcodes[..i])
        invariant pending == old(pending) + started
        invariant queries == Queries(started)
        invariant isProcessing == (started != [])
        invariant status == StatusAfterFrame(old(status), started)
        invariant dialogs == old(dialogs)
      {
        CandidatesStep(barcodes, i);
        var c := Candidate(barcodes[i]);
        if c.Some? {
          var q := FetchBookInfo(c.value);
          AppendAssoc(old(pending), started, [c.value]);
          QueriesSnoc(started, c.value);
          StatusAfterFrameSnoc(old(status), started, c.value);
          queries := queries + [q];
          started := started + [c.value];
        }
        assert started == Candidates(barcodes[..i + 1]);
        i := i + 1;
      }
      assert barcodes[..i] == barcodes;
    }

    /**
     * The lookup issued for `pending[k]` finishes with `outcome`. A result
     * opens a dialog and leaves the gate closed; "not found" and an
     * exception report on the status line and open the gate.
     */
    method OnLookupResult(k: nat, outcome: LookupOutcome)
      requires k < |pending|
      modifies this
      ensures pending == old(pending[..k] + pending[k + 1..])
      ensures match Resolve(old(pending[k]), outcome)
        case ShowDialog(v) =>
          dialogs == old(dialogs) + [DialogOf(v)] && isProcessing == old(isProcessing) && status == old(status)
        case Report(message) =>
          dialogs == old(dialogs) && !isProcessing && status == message
      ensures old(SingleFlight()) ==> SingleFlight()
    {
      var code := pending[k];
      pending := pending[..k] + pending[k + 1..];
      match Resolve(code, outcome) {
        case ShowDialog(v) =>
          dialogs := dialogs + [DialogOf(v)];
        case Report(message) =>
          status := message;
          isProcessing := false;
      }
    }

    /**
     * The add-to-favourites button of dialog `k`: saves the book unless a
     * row with its ISBN exists (a null ISBN never counts as existing), then
     * closes the dialog, opens the gate and restores the idle prompt.
     */
    method Confirm(k: nat, now: int) returns (toast: string)
      requires Valid() && k < |dialogs|
      modifies this, db
      ensures Valid()
      ensures old(db.BookExists(dialogs[k].isbn)) ==>
        toast == AlreadySaved && db.rows == old(db.rows) && db.lastId == old(db.lastId)
      ensures !old(db.BookExists(dialogs[k].isbn)) ==>
        && toast == Added
        && db.lastId == old(db.lastId) + 1
        && db.rows == old(db.rows) + [ToBook(old(dialogs[k]), now).(id := db.lastId)]
      ensures old(dialogs[k]).isbn.Some? ==> db.BookExists(old(dialogs[k]).isbn)
      ensures dialogs == old(dialogs[..k] + dialogs[k + 1..]) && pending == old(pending)
      ensures !isProcessing && status == IdlePrompt
      ensures old(SingleFlight()) ==> SingleFlight()
    {
      var d := dialogs[k];
      if db.BookExists(d.isbn) {
        toast := AlreadySaved;
      } else {
        var _ := db.AddBook(ToBook(d, now));
        toast := Added;
      }
      dialogs := dialogs[..k] + dialogs[k + 1..];
      isProcessing := false;
      status := IdlePrompt;
    }

    /** The cancel button of dialog `k`: closes it, opens the gate, restores the idle prompt. */
    method Cancel(k: nat)
      requires k < |dialogs|
      modifies this
      ensures dialogs == old(dialogs[..k] + dialogs[k + 1..]) && pending == old(pending)
      ensures !isProcessing && status == IdlePrompt
      ensures old(SingleFlight()) ==> SingleFlight()
    {
      dialogs := dialogs[..k] + dialogs[k + 1..];
      isProcessing := false;
      status := IdlePrompt;
    }

    /**
     * Back, or a tap outside dialog `k`: the dialog is cancelable and has no
     * cancel or dismiss listener, so it closes without running either
     * button's listener. Nothing opens the gate or restores the prompt.
     */
    method Dismiss(k: nat)
      requires k < |dialogs|
      modifies this
      ensures dialogs == old(dialogs[..k] + dialogs[k + 1..]) && pending == old(pending)
      ensures isProcessing == old(isProcessing) && status == old(status)
    {
      dialogs := dialogs[..k] + dialogs[k + 1..];
    }
  }
}
