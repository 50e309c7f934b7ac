/**
 * The three parts as one system: scanning saves into the store that the
 * library lists and searches. Concrete runs of the event handlers show the
 * documented behaviours and the one the gate does not prevent.
 */
module Workflow {
  import opened Wrappers
  import opened Text
  import opened GoogleBooks
  import opened Books
  import opened Scanner
  import Database
  import Library

  /** The library's details view of a scanned book repeats the texts its scan dialog showed. */
  lemma DetailsRepeatScanDialog(v: VolumeInfo, now: int)
    ensures var d := DialogOf(v);
      Library.DetailsOf(ToBook(d, now)) == Library.Details(d.titulo, d.autor, d.ano, d.descricao)
  {
  }

  /**
   * A scanned book whose volume had no authors is saved with the placeholder
   * as its author, so a search for "desconhecido" lists it.
   */
  lemma UnknownAuthorIsSearchable(v: VolumeInfo, now: int)
    requires v.authors.None?
    ensures Library.Matches(ToBook(DialogOf(v), now), "DESCONHECIDO")
  {
    assert DialogOf(v).autor == UnknownAuthor;
    PlaceholderContainsUnknown();
  }

  lemma PlaceholderContainsUnknown()
    ensures ContainsIgnoreCase(UnknownAuthor, "DESCONHECIDO")
  {
    var q := "DESCONHECIDO";
    assert UnknownAuthor[6..] == "desconhecido";
    assert forall j :: 0 <= j < |q| ==> Fold(UnknownAuthor[6..][j]) == Fold(q[j]);
    assert MatchesAt(UnknownAuthor, 6, q);
  }

  function Dune(): Book {
    Book(1, Some("9780441013593"), "Dune", Some("Frank Herbert"), None, None, None, 0)
  }

  /** A book titled "Dune" is found by "dune" and by "DUNE". */
  lemma DuneFoundIgnoringCase()
    ensures Library.Filtered([Dune()], "dune") == [Dune()]
    ensures Library.Filtered([Dune()], "DUNE") == [Dune()]
  {
    assert Dune().titulo[0..] == "Dune";
    assert MatchesAt(Dune().titulo, 0, "dune");
    assert MatchesAt(Dune().titulo, 0, "DUNE");
  }

  /** A frame of two qualifying barcodes hands both codes to lookups, in order. */
  lemma PairCandidates(x: Barcode, y: Barcode)
    requires Candidate(x).Some? && Candidate(y).Some?
    ensures Candidates([x, y]) == [Candidate(x).value, Candidate(y).value]
  {
    assert [x, y][..1] == [x];
    assert [x][..0] == [];
  }

  /** A frame of one qualifying barcode hands its code to a lookup. */
  lemma SingleCandidate(x: Barcode)
    requires Candidate(x).Some?
    ensures Candidates([x]) == [Candidate(x).value]
  {
    assert [x][..0] == [];
  }

  /**
   * One frame holding two qualifying barcodes starts two lookups. When the
   * first finds nothing the gate opens while the second is still pending, so
   * the next frame, with a third qualifying barcode, starts another.
   */
  method TwoCodesInOneFrame(x: Barcode, y: Barcode, z: Barcode)
    returns (startedByFrame: nat, gateOpenWhilePending: bool, pendingAfterNextFrame: nat)
    requires Candidate(x).Some? && Candidate(y).Some? && Candidate(z).Some?
    ensures startedByFrame == 2 && gateOpenWhilePending && pendingAfterNextFrame == 2
  {
    var db := new Database.DatabaseHelper();
    var screen := new ScannerFragment(db);
    PairCandidates(x, y);
    var _ := screen.OnFrame(true, [x, y]);
    startedByFrame := |screen.pending|;
    assert !screen.SingleFlight();

    screen.OnLookupResult(0, Response(GoogleBooksResponse(None)));
    gateOpenWhilePending := !screen.isProcessing && |screen.pending| == 1;

    SingleCandidate(z);
    var _ := screen.OnFrame(true, [z]);
    pendingAfterNextFrame := |screen.pending|;
  }

  lemma NotFoundText()
    ensures NotFoundMessage("9780441013593") == "Livro não encontrado para ISBN: 9780441013593"
  {
  }

  /** A lookup that returns an empty item list reports "not found", opens the gate and saves nothing. */
  method LookupNotFound() returns (status: string, gateOpen: bool, rows: nat)
    ensures status == "Livro não encontrado para ISBN: 9780441013593"
    ensures gateOpen && rows == 0
  {
    var db := new Database.DatabaseHelper();
    var screen := new ScannerFragment(db);
    var code := "9780441013593";
    var frame := [Barcode(TypeIsbn, Some(code))];
    assert frame[..0] == [];
    assert Candidates(frame) == [code];
    var _ := screen.OnFrame(true, frame);
    assert screen.pending == [code];
    screen.OnLookupResult(0, Response(GoogleBooksResponse(Some([]))));
    status, gateOpen, rows := screen.status, !screen.isProcessing, |db.rows|;
    NotFoundText();
  }

  /**
   * One full round on an idle scan screen: a frame with one qualifying
   * barcode, a lookup that finds volume `v`, then the add-to-favourites
   * button. The screen ends idle again.
   */
  method ScanAndConfirm(screen: ScannerFragment, x: Barcode, v: VolumeInfo, now: int) returns (toast: string)
    requires screen.Valid() && Candidate(x).Some?
    requires !screen.isProcessing && screen.pending == [] && screen.dialogs == []
    modifies screen, screen.db
    ensures screen.Valid()
    ensures !screen.isProcessing && screen.pending == [] && screen.dialogs == []
    ensures old(screen.db.BookExists(DialogOf(v).isbn)) ==>
      toast == AlreadySaved && screen.db.rows == old(screen.db.rows) && screen.db.lastId == old(screen.db.lastId)
    ensures !old(screen.db.BookExists(DialogOf(v).isbn)) ==>
      && toast == Added
      && screen.db.lastId == old(screen.db.lastId) + 1
      && screen.db.rows == old(screen.db.rows) + [ToBook(DialogOf(v), now).(id := screen.db.lastId)]
      && |screen.db.rows| == |old(screen.db.rows)| + 1
      && screen.db.rows[|old(screen.db.rows)|] == ToBook(DialogOf(v), now).(id := screen.db.lastId)
    ensures DialogOf(v).isbn.Some? ==> screen.db.BookExists(DialogOf(v).isbn)
  {
    SingleCandidate(x);
    var _ := screen.OnFrame(true, [x]);
    screen.OnLookupResult(0, Response(GoogleBooksResponse(Some([BookItem(v)]))));
    toast := screen.Confirm(0, now);
  }

  function DuneVolume(): VolumeInfo {
    VolumeInfo(Some("Dune"), Some(["Frank Herbert"]), None, None, None, None,
               Some([IndustryIdentifier(Some("ISBN_13"), Some("9780441013593"))]))
  }

  /** The dialog for the catalogue's "Dune" shows its title and author and keeps its ISBN. */
  lemma DuneDialog()
    ensures DialogOf(DuneVolume()).titulo == "Dune"
    ensures DialogOf(DuneVolume()).autor == "Frank Herbert"
    ensures DialogOf(DuneVolume()).isbn == Some("9780441013593")
    ensures DialogOf(DuneVolume()).ano == UnknownYear
  {
  }

  /**
   * Scanning and confirming a book with an identifier saves one row, the
   * mapped book with the first id, after which its ISBN exists; confirming
   * the same book again is refused and saves nothing.
   */
  method ScanSameBookTwice(x: Barcode, v: VolumeInfo)
    returns (saved: Book, isbnSaved: bool, rowsAfterFirst: nat, rowsAfterSecond: nat, secondToast: string)
    requires Candidate(x).Some? && FirstIdentifier(v).Some?
    ensures saved == ToBook(DialogOf(v), 1000).(id := 1)
    ensures isbnSaved && rowsAfterFirst == 1 && rowsAfterSecond == 1 && secondToast == AlreadySaved
  {
    var screen := ScanIntoEmptyStore(x, v);
    saved := screen.db.rows[0];
    isbnSaved := screen.db.BookExists(DialogOf(v).isbn);
    rowsAfterFirst := |screen.db.rows|;

    secondToast := ScanAndConfirm(screen, x, v, 2000);
    rowsAfterSecond := |screen.db.rows|;
  }

  /** The first round of `ScanSameBookTwice`, on a new screen over an empty store, at time 1000. */
  method ScanIntoEmptyStore(x: Barcode, v: VolumeInfo) returns (screen: ScannerFragment)
    requires Candidate(x).Some? && FirstIdentifier(v).Some?
    ensures fresh(screen) && fresh(screen.db) && screen.Valid()
    ensures !screen.isProcessing && screen.pending == [] && screen.dialogs == []
    ensures screen.db.rows == [ToBook(DialogOf(v), 1000).(id := 1)]
    ensures screen.db.BookExists(DialogOf(v).isbn)
  {
    var db := new Database.DatabaseHelper();
    screen := new ScannerFragment(db);
    assert !db.BookExists(DialogOf(v).isbn);
    var _ := ScanAndConfirm(screen, x, v, 1000);
    assert db.lastId == 1;
    assert |db.rows| == 1;
    assert db.rows[0] == ToBook(DialogOf(v), 1000).(id := 1);
  }

  /**
   * A dialog closed with Back or a tap outside leaves the gate closed with
   * nothing outstanding: from then on every frame is dropped, and the
   * single-flight property no longer holds.
   */
  method DismissLocksScanner(x: Barcode, v: VolumeInfo, later: seq<Barcode>)
    returns (gateClosed: bool, outstanding: nat, startedLater: nat)
    requires Candidate(x).Some?
    ensures gateClosed && outstanding == 0 && startedLater == 0
  {
    var db := new Database.DatabaseHelper();
    var screen := new ScannerFragment(db);
    SingleCandidate(x);
    var _ := screen.OnFrame(true, [x]);
    screen.OnLookupResult(0, Response(GoogleBooksResponse(Some([BookItem(v)]))));
    screen.Dismiss(0);
    assert !screen.SingleFlight();
    gateClosed, outstanding := screen.isProcessing, |screen.pending| + |screen.dialogs|;
    var queries := screen.OnFrame(true, later);
    startedLater := |queries| + |screen.pending|;
  }

  /** Deleting an id the store never assigned removes nothing. */
  method DeleteUnknownId() returns (removed: int, tableKept: bool)
    ensures removed == 0 && tableKept
  {
    var db := new Database.DatabaseHelper();
    var id := db.AddBook(Dune());
    var before := db.rows;
    removed := db.DeleteBook(id + 1);
    Database.RemoveIdAbsent(before, id + 1);
    tableKept := db.rows == before;
  }
}
