/**
 * The library screen (BibliotecaFragment): the favourites list loaded from
 * the store, its case-insensitive search over title and author, the message
 * shown when nothing is listed, the details view and removal.
 */
module Library {
  import opened Wrappers
  import opened Text
  import opened Books
  import Database

  const NoBooksYet: string := "Nenhum livro adicionado ainda.\n" + "Use o Scanner para adicionar livros!"
  const NotFoundPrefix: string := "Nenhum livro encontrado com \""
  const Removed: string := "Livro removido dos favoritos"

  /** The search test: the title, or an author that is present, contains the query ignoring case. */
  predicate Matches(b: Book, q: string) {
    ContainsIgnoreCase(b.titulo, q) || (b.autor.Some? && ContainsIgnoreCase(b.autor.value, q))
  }

  /** `allBooks.filter { ... }`: the matching books, in list order. */
  function Filter(books: seq<Book>, q: string): (r: seq<Book>)
    ensures |r| <= |books|
    ensures forall b :: b in r <==> b in books && Matches(b, q)
  {
    if books == [] then []
    else (if Matches(books[0], q) then [books[0]] else []) + Filter(books[1..], q)
  }

  /** What `filterBooks` lists: everything for an empty query, the matches otherwise. */
  function Filtered(all: seq<Book>, q: string): (r: seq<Book>)
    ensures q == [] ==> r == all
    ensures |r| <= |all|
    ensures forall b :: b in r <==> b in all && (q == [] || Matches(b, q))
  {
    if q == [] then all else Filter(all, q)
  }

  /** `r` is `s` with some elements left out and the rest in their order. */
  ghost predicate IsSubsequence(r: seq<Book>, s: seq<Book>)
    decreases |s|
  {
    if r == [] then true
    else if s == [] then false
    else (r[0] == s[0] && IsSubsequence(r[1..], s[1..])) || IsSubsequence(r, s[1..])
  }

  lemma {:induction false} SubsequenceReflexive(s: seq<Book>)
    ensures IsSubsequence(s, s)
  {
    if s != [] {
      SubsequenceReflexive(s[1..]);
    }
  }

  lemma {:induction false} FilterIsSubsequence(books: seq<Book>, q: string)
    ensures IsSubsequence(Filter(books, q), books)
  {
    if books != [] {
      FilterIsSubsequence(books[1..], q);
      var r := Filter(books, q);
      if Matches(books[0], q) {
        assert r[0] == books[0] && r[1..] == Filter(books[1..], q);
      } else {
        assert r == Filter(books[1..], q);
      }
    }
  }

  /** The listed books are an order-preserving selection of the loaded list. */
  lemma FilteredIsSubsequence(all: seq<Book>, q: string)
    ensures IsSubsequence(Filtered(all, q), all)
  {
    if q == [] {
      SubsequenceReflexive(all);
    } else {
      FilterIsSubsequence(all, q);
    }
  }

  /** Every copy of a matching book is kept and every copy of another one dropped. */
  lemma {:induction false} FilterKeepsEveryMatch(books: seq<Book>, q: string, b: Book)
    ensures multiset(Filter(books, q))[b] == if Matches(b, q) then multiset(books)[b] else 0
  {
    if books != [] {
      FilterKeepsEveryMatch(books[1..], q, b);
      assert books == [books[0]] + books[1..];
    }
  }

  /** Filtering with the empty query would keep everything, so the early return changes nothing. */
  lemma {:induction false} FilterEmptyQueryKeepsAll(books: seq<Book>)
    ensures Filter(books, "") == books
  {
    if books != [] {
      ContainsEmpty(books[0].titulo);
      FilterEmptyQueryKeepsAll(books[1..]);
    }
  }

  lemma {:induction false} FilterIgnoresQueryCase(books: seq<Book>, q1: string, q2: string)
    requires SameUpToCase(q1, q2)
    ensures Filter(books, q1) == Filter(books, q2)
  {
    if books != [] {
      ContainsIgnoresQueryCase(books[0].titulo, q1, q2);
      if books[0].autor.Some? {
        ContainsIgnoresQueryCase(books[0].autor.value, q1, q2);
      }
      FilterIgnoresQueryCase(books[1..], q1, q2);
    }
  }

  /** Queries that differ only in letter case list the same books. */
  lemma FilteredIgnoresQueryCase(all: seq<Book>, q1: string, q2: string)
    requires SameUpToCase(q1, q2)
    ensures Filtered(all, q1) == Filtered(all, q2)
  {
    FilterIgnoresQueryCase(all, q1, q2);
  }

  /** The message for an empty list: an invitation to scan, or a "not found" naming the query. */
  function EmptyText(q: string): (r: string)
    ensures q == [] ==> r == NoBooksYet
    ensures q != [] ==> r != NoBooksYet
    ensures q != [] ==> OccursAt(r, |NotFoundPrefix|, q)
    ensures q != [] ==>
      && |r| == |NotFoundPrefix| + |q| + 1
      && r[..|NotFoundPrefix|] == NotFoundPrefix
      && r[|NotFoundPrefix|..|r| - 1] == q
      && r[|r| - 1] == '"'
  {
    if q == [] then NoBooksYet
    else
      var r := NotFoundPrefix + q + "\"";
      assert r[13] == NotFoundPrefix[13] == 'e';
      assert NoBooksYet[13] == 'a';
      r
  }

  /** The texts of the details dialog. */
  datatype Details = Details(titulo: string, autor: string, ano: string, descricao: string)

  function DetailsOf(b: Book): Details {
    Details(b.titulo, b.autor.GetOr(UnknownAuthor), b.ano.GetOr(UnknownYear), b.descricao.GetOr(NoDescription))
  }

  class BibliotecaFragment {
    /** The favourites store this screen reads and deletes from. */
    const db: Database.DatabaseHelper
    /** Every saved book, as last loaded. */
    var allBooks: seq<Book>
    /** The text of the search box. */
    var searchQuery: string
    /** Whether the list (rather than the empty message) is visible. */
    var listVisible: bool
    /** The books handed to the list adapter last. */
    var adapterBooks: seq<Book>
    /** The text of the empty message. */
    var emptyText: string

    /** The screen shows what `filterBooks(q)` computes for the loaded list. */
    ghost predicate Shows(q: string)
      reads this
    {
      && (listVisible <==> Filtered(allBooks, q) != [])
      && (listVisible ==> adapterBooks == Filtered(allBooks, q))
      && (!listVisible ==> emptyText == EmptyText(q))
    }

    /** `allBooks` is the store's current content, newest first. */
    ghost predicate Loaded()
      reads this, db
    {
      Database.NewestFirst(allBooks) && multiset(allBooks) == multiset(db.rows)
    }

    /** `onViewCreated`: an empty adapter and search box, then `loadBooks`. */
    constructor (db: Database.DatabaseHelper)
      ensures this.db == db && searchQuery == []
      ensures Loaded() && Shows(searchQuery)
    {
      this.db := db;
      allBooks := [];
      searchQuery := [];
      listVisible := false;
      adapterBooks := [];
      emptyText := [];
      new;
      LoadBooks();
    }

    /** `filterBooks(query)`: shows the matching books, or the empty message when there are none. */
    method FilterBooks(query: string)
      modifies this
      ensures allBooks == old(allBooks) && searchQuery == old(searchQuery)
      ensures Shows(query)
      ensures listVisible ==> emptyText == old(emptyText)
      ensures !listVisible ==> adapterBooks == old(adapterBooks)
    {
      var filtered := Filtered(allBooks, query);
      if filtered == [] {
        listVisible := false;
        emptyText := EmptyText(query);
      } else {
        listVisible := true;
        adapterBooks := filtered;
      }
    }

    /** `onQueryTextChange`: a null text searches for the empty query. */
    method OnQueryTextChange(newText: Option<string>)
      modifies this
      ensures searchQuery == newText.GetOr([]) && allBooks == old(allBooks)
      ensures Shows(searchQuery)
    {
      searchQuery := newText.GetOr([]);
      FilterBooks(searchQuery);
    }

    /** `loadBooks` (also `onResume`): reloads from the store and re-applies the current query. */
    method LoadBooks()
      modifies this
      ensures searchQuery == old(searchQuery)
      ensures Loaded() && Shows(searchQuery)
    {
      allBooks := db.GetAllBooks();
      FilterBooks(searchQuery);
    }

    /** The confirmed "remove" of the details dialog: deletes the book's row and reloads. */
    method RemoveBook(book: Book) returns (toast: string)
      requires db.Valid()
      modifies this, db
      ensures db.Valid()
      ensures db.rows == Database.RemoveId(old(db.rows), book.id)
      ensures forall i :: 0 <= i < |allBooks| ==> allBooks[i].id != book.id
      ensures searchQuery == old(searchQuery)
      ensures Loaded() && Shows(searchQuery)
      ensures toast == Removed
    {
      Database.RemoveIdKeeps(old(db.rows), book.id);
      var _ := db.DeleteBook(book.id);
      LoadBooks();
      forall i | 0 <= i < |allBooks| ensures allBooks[i].id != book.id {
        assert allBooks[i] in multiset(db.rows);
      }
      toast := Removed;
    }
  }
}
