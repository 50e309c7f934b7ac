/**
 * The favourites store: the SQLite table `livros` behind DatabaseHelper.
 * The table is a sequence of rows in insertion order, and the AUTOINCREMENT
 * counter is the largest id ever handed out.
 */
module Database {
  import opened Wrappers
  import opened Books

  /** Ids grow strictly along the table (rows are appended with fresh, larger ids). */
  ghost predicate IdsIncreasing(rows: seq<Book>) {
    forall i, j :: 0 <= i < j < |rows| ==> rows[i].id < rows[j].id
  }

  predicate HasId(rows: seq<Book>, id: int) {
    exists i :: 0 <= i < |rows| && rows[i].id == id
  }

  /** `SELECT id FROM livros WHERE isbn = ?` followed by `cursor.count`. */
  function CountIsbn(rows: seq<Book>, isbn: string): (n: nat)
    ensures n <= |rows|
    ensures n > 0 <==> exists i :: 0 <= i < |rows| && rows[i].isbn == Some(isbn)
  {
    if rows == [] then 0
    else
      var init := rows[..|rows| - 1];
      assert forall i :: 0 <= i < |init| ==> init[i] == rows[i];
      CountIsbn(init, isbn) + (if rows[|rows| - 1].isbn == Some(isbn) then 1 else 0)
  }

  /** Appending a row with ISBN `isbn` adds exactly one to the count: nothing makes ISBNs unique. */
  lemma CountIsbnAppend(rows: seq<Book>, b: Book, isbn: string)
    ensures CountIsbn(rows + [b], isbn) == CountIsbn(rows, isbn) + (if b.isbn == Some(isbn) then 1 else 0)
  {
    assert (rows + [b])[..|rows|] == rows;
  }

  /** `DELETE FROM livros WHERE id = ?`. */
  function RemoveId(rows: seq<Book>, id: int): (r: seq<Book>)
    ensures |r| <= |rows|
  {
    if rows == [] then []
    else (if rows[0].id == id then [] else [rows[0]]) + RemoveId(rows[1..], id)
  }

  /** The delete keeps exactly the rows whose id differs from `id`. */
  lemma {:induction false} RemoveIdKeeps(rows: seq<Book>, id: int)
    ensures forall b :: b in RemoveId(rows, id) <==> b in rows && b.id != id
  {
    if rows != [] {
      RemoveIdKeeps(rows[1..], id);
      assert rows == [rows[0]] + rows[1..];
    }
  }

  /** Deleting an id no row carries leaves the table as it is. */
  lemma {:induction false} RemoveIdAbsent(rows: seq<Book>, id: int)
    requires !HasId(rows, id)
    ensures RemoveId(rows, id) == rows
  {
    if rows != [] {
      assert !HasId(rows[1..], id) by {
        forall i | 0 <= i < |rows| - 1 ensures rows[1..][i].id != id {
          assert rows[1..][i] == rows[i + 1];
        }
      }
      RemoveIdAbsent(rows[1..], id);
    }
  }

  /**
   * Since ids are a key, deleting the id of row `k` removes that row and
   * keeps every other row in place.
   */
  lemma {:induction false} RemoveIdAt(rows: seq<Book>, id: int, k: nat)
    requires IdsIncreasing(rows)
    requires k < |rows| && rows[k].id == id
    ensures RemoveId(rows, id) == rows[..k] + rows[k + 1..]
  {
    var tail := rows[1..];
    TailIdsIncreasing(rows);
    if k == 0 {
      assert !HasId(tail, id);
      RemoveIdAbsent(tail, id);
      assert rows[..k] + rows[k + 1..] == tail;
    } else {
      assert rows[0].id < rows[k].id;
      RemoveIdAt(tail, id, k - 1);
      assert rows[..k] == [rows[0]] + tail[..k - 1];
      assert rows[k + 1..] == tail[k..];
    }
  }

  /** Without its first row the table still has increasing ids, all above the first one. */
  lemma TailIdsIncreasing(rows: seq<Book>)
    requires IdsIncreasing(rows) && rows != []
    ensures IdsIncreasing(rows[1..])
    ensures forall i :: 0 <= i < |rows| - 1 ==> rows[0].id < rows[1..][i].id
  {
    var tail := rows[1..];
    forall i, j | 0 <= i < j < |tail| ensures tail[i].id < tail[j].id {
      assert tail[i] == rows[i + 1] && tail[j] == rows[j + 1];
    }
    forall i | 0 <= i < |tail| ensures rows[0].id < tail[i].id {
      assert tail[i] == rows[i + 1];
    }
  }

  /** Deleting a row keeps ids strictly increasing. */
  lemma RemoveIdKeepsIdsIncreasing(rows: seq<Book>, id: int)
    requires IdsIncreasing(rows)
    ensures IdsIncreasing(RemoveId(rows, id))
  {
    if !HasId(rows, id) {
      RemoveIdAbsent(rows, id);
    } else {
      var k :| 0 <= k < |rows| && rows[k].id == id;
      RemoveIdAt(rows, id, k);
      WithoutRowIdsIncreasing(rows, k);
    }
  }

  lemma WithoutRowIdsIncreasing(rows: seq<Book>, k: nat)
    requires IdsIncreasing(rows) && k < |rows|
    ensures IdsIncreasing(rows[..k] + rows[k + 1..])
  {
    var r := rows[..k] + rows[k + 1..];
    assert forall i :: 0 <= i < |r| ==> r[i] == rows[if i < k then i else i + 1];
  }

  /** Deleting removes one row when the id is present and none otherwise. */
  lemma RemoveIdCount(rows: seq<Book>, id: int)
    requires IdsIncreasing(rows)
    ensures |rows| - |RemoveId(rows, id)| == if HasId(rows, id) then 1 else 0
  {
    if !HasId(rows, id) {
      RemoveIdAbsent(rows, id);
    } else {
      var k :| 0 <= k < |rows| && rows[k].id == id;
      RemoveIdAt(rows, id, k);
    }
  }

  /** `ORDER BY data_adicionado DESC`: newest first; rows with equal times in any order. */
  ghost predicate NewestFirst(s: seq<Book>) {
    forall i, j :: 0 <= i < j < |s| ==> s[i].dataAdicionado >= s[j].dataAdicionado
  }

  /** A row no older than anything in a newest-first list can go in front of it. */
  lemma PrependNewest(b: Book, s: seq<Book>)
    requires NewestFirst(s)
    requires forall k :: 0 <= k < |s| ==> s[k].dataAdicionado <= b.dataAdicionado
    ensures NewestFirst([b] + s)
  {
    var r := [b] + s;
    forall i, j | 0 <= i < j < |r| ensures r[i].dataAdicionado >= r[j].dataAdicionado {
      assert r[j] == s[j - 1];
      if i > 0 {
        assert r[i] == s[i - 1];
      }
    }
  }

  /** Places `b` in a newest-first list before the first row that is not newer than it. */
  function InsertByDate(b: Book, s: seq<Book>): (r: seq<Book>)
    requires NewestFirst(s)
    ensures NewestFirst(r)
    ensures multiset(r) == multiset(s) + multiset{b}
  {
    if s == [] || s[0].dataAdicionado <= b.dataAdicionado then
      assert forall k :: 0 <= k < |s| ==> s[k].dataAdicionado <= s[0].dataAdicionado;
      PrependNewest(b, s);
      [b] + s
    else
      var tail := s[1..];
      assert forall k :: 0 <= k < |tail| ==> tail[k] == s[k + 1];
      var rest := InsertByDate(b, tail);
      assert s == [s[0]] + tail;
      NoNewerThanHead(s, b, rest);
      PrependNewest(s[0], rest);
      [s[0]] + rest
  }

  /** Rows taken from behind the head of a newest-first list, plus an older row, are no newer than the head. */
  lemma NoNewerThanHead(s: seq<Book>, b: Book, rest: seq<Book>)
    requires NewestFirst(s) && s != [] && b.dataAdicionado < s[0].dataAdicionado
    requires multiset(rest) == multiset(s[1..]) + multiset{b}
    ensures forall k :: 0 <= k < |rest| ==> rest[k].dataAdicionado <= s[0].dataAdicionado
  {
    forall k | 0 <= k < |rest| ensures rest[k].dataAdicionado <= s[0].dataAdicionado {
      assert rest[k] in multiset(rest);
      if rest[k] != b {
        assert rest[k] in multiset(s[1..]);
        var j :| 0 <= j < |s| - 1 && s[1..][j] == rest[k];
        assert s[1..][j] == s[j + 1];
      }
    }
  }

  class DatabaseHelper {
    /** The rows of `livros`, in insertion order. */
    var rows: seq<Book>
    /** The AUTOINCREMENT counter: the largest id the table has handed out. */
    var lastId: int
    /** Every id handed out since the table was created. */
    ghost var usedIds: set<int>

    ghost predicate Valid()
      reads this
    {
      && lastId >= 0
      && IdsIncreasing(rows)
      && (forall i :: 0 <= i < |rows| ==> rows[i].id in usedIds)
      && (forall x :: x in usedIds ==> 0 < x <= lastId)
    }

    /** `onCreate`: an empty table. */
    constructor ()
      ensures Valid()
      ensures rows == [] && lastId == 0 && usedIds == {}
    {
      rows := [];
      lastId := 0;
      usedIds := {};
    }

    /** `onUpgrade`: `DROP TABLE` discards the rows and the counter, then `onCreate` runs. */
    method OnUpgrade()
      modifies this
      ensures Valid()
      ensures rows == [] && lastId == 0 && usedIds == {}
    {
      rows := [];
      lastId := 0;
      usedIds := {};
    }

    /**
     * `addBook`: inserts one row carrying every field of `book` except its
     * `id`, which the table assigns, and returns the new id.
     */
    method AddBook(book: Book) returns (id: int)
      requires Valid()
      modifies this
      ensures Valid()
      ensures id !in old(usedIds) && id > 0
      ensures rows == old(rows) + [book.(id := id)]
      ensures id == old(lastId) + 1 && lastId == id && usedIds == old(usedIds) + {id}
      ensures book.isbn.Some? ==> BookExists(book.isbn)
    {
      id := lastId + 1;
      rows := rows + [book.(id := id)];
      lastId := id;
      usedIds := usedIds + {id};
      CountIsbnAppend(old(rows), book.(id := id), if book.isbn.Some? then book.isbn.value else "");
    }

    /** `getAllBooks`: every row once, newest first, as the cursor delivers them. */
    method GetAllBooks() returns (books: seq<Book>)
      ensures NewestFirst(books)
      ensures multiset(books) == multiset(rows)
    {
      books := [];
      var i := 0;
      while i < |rows|
        invariant 0 <= i <= |rows|
        invariant NewestFirst(books)
        invariant multiset(books) == multiset(rows[..i])
      {
        books := InsertByDate(rows[i], books);
        assert rows[..i + 1] == rows[..i] + [rows[i]];
        i := i + 1;
      }
      assert rows[..i] == rows;
    }

    /** `deleteBook`: removes the row with this id and returns how many rows went. */
    method DeleteBook(id: int) returns (count: int)
      requires Valid()
      modifies this
      ensures Valid()
      ensures rows == RemoveId(old(rows), id)
      ensures lastId == old(lastId) && usedIds == old(usedIds)
      ensures count == |old(rows)| - |rows|
      ensures count == if HasId(old(rows), id) then 1 else 0
    {
      var before := rows;
      rows := RemoveId(rows, id);
      RemoveIdKeeps(before, id);
      RemoveIdKeepsIdsIncreasing(before, id);
      RemoveIdCount(before, id);
      count := |before| - |rows|;
    }

    /** `bookExists`: false for a null ISBN, otherwise whether some row carries it. */
    function BookExists(isbn: Option<string>): (r: bool)
      reads this
      ensures r <==> isbn.Some? && exists i :: 0 <= i < |rows| && rows[i].isbn == isbn
    {
      isbn.Some? && CountIsbn(rows, isbn.value) > 0
    }
  }
}
