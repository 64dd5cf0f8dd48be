/** The data layer of the library-catalog admin page: four lists (books, authors,
    categories, publishers) held in one store, and the add, update and delete
    operations on them. Every operation is a pure function from the store before
    to the store after; the page's re-rendering, toasts and modals are not part
    of it. */
module Catalog {
  import opened Options

  /** The `{id, name}` copy of an author, category or publisher that a book keeps.
      It is taken when the book is added and is not refreshed by later edits. */
  datatype Ref = Ref(id: int, name: string)

  datatype Book = Book(
    id: int,
    isbn: string,
    name: string,
    serialName: string,
    description: string,
    authors: seq<Ref>,
    categories: seq<Ref>,
    publishers: seq<Ref>)
  {
    /** The references this book holds to entities of kind `k`. */
    function Refs(k: Kind): seq<Ref> {
      match k
      case Authors => authors
      case Categories => categories
      case Publishers => publishers
    }
  }

  /** An author, category or publisher. Only authors carry a description;
      `booksCount` is the counter that adding and deleting books maintains. */
  datatype Entity = Entity(id: int, name: string, description: Option<string>, booksCount: int)

  /** Which of the three entity lists. */
  datatype Kind = Authors | Categories | Publishers

  datatype Store = Store(
    books: seq<Book>,
    authors: seq<Entity>,
    categories: seq<Entity>,
    publishers: seq<Entity>)
  {
    /** The entity list of kind `k`. */
    function List(k: Kind): seq<Entity> {
      match k
      case Authors => authors
      case Categories => categories
      case Publishers => publishers
    }

    /** This store with the entity list of kind `k` replaced by `es`. */
    function WithList(k: Kind, es: seq<Entity>): (r: Store)
      ensures r.books == books
      ensures r.List(k) == es
      ensures forall k' :: k' != k ==> r.List(k') == List(k')
    {
      match k
      case Authors => this.(authors := es)
      case Categories => this.(categories := es)
      case Publishers => this.(publishers := es)
    }
  }

  /** The keys of a list, in order. */
  function KeysOf<T>(xs: seq<T>, key: T -> int): (r: seq<int>)
    ensures |r| == |xs| && forall i :: 0 <= i < |xs| ==> r[i] == key(xs[i])
  {
    seq(|xs|, i requires 0 <= i < |xs| => key(xs[i]))
  }

  /** The ids of a list of entities, in order. */
  function Ids(es: seq<Entity>): seq<int> {
    KeysOf(es, (e: Entity) => e.id)
  }

  /** The ids of a list of books, in order. */
  function BookIds(bs: seq<Book>): seq<int> {
    KeysOf(bs, (b: Book) => b.id)
  }

  /** `findIndex` by id: the first position that holds `id`, or -1 when there is none. */
  function IndexOf(ids: seq<int>, id: int): (r: int)
    ensures -1 <= r < |ids|
    ensures r == -1 <==> id !in ids
    ensures r >= 0 ==> ids[r] == id && id !in ids[..r]
  {
    if |ids| == 0 then -1
    else if ids[0] == id then 0
    else
      var j := IndexOf(ids[1..], id);
      assert ids[1..][..if j < 0 then 0 else j] == ids[1..if j < 0 then 1 else j + 1];
      if j == -1 then -1 else j + 1
  }

  /** The list without its element at position `i` (`splice(i, 1)`). */
  function RemoveAt<T>(xs: seq<T>, i: nat): (r: seq<T>)
    requires i < |xs|
    ensures |r| == |xs| - 1
    ensures forall j :: 0 <= j < i ==> r[j] == xs[j]
    ensures forall j :: i <= j < |r| ==> r[j] == xs[j + 1]
  {
    xs[..i] + xs[i + 1..]
  }

  /** `es2` is `es1` with the `booksCount` of the entry at position `j` moved by
      `delta` and every other entry, and every other field, left as it was. A
      negative `j` names no entry, so then the two lists are equal. */
  ghost predicate Shifted(es1: seq<Entity>, es2: seq<Entity>, j: int, delta: int) {
    && |es2| == |es1|
    && forall i :: 0 <= i < |es1| ==>
         es2[i] == if i == j then es1[i].(booksCount := es1[i].booksCount + delta) else es1[i]
  }

  /** `find(e => e.id === id)` followed by `booksCount += delta` on the entity found,
      doing nothing when no entity has that id. */
  function Bump(es: seq<Entity>, id: int, delta: int): (r: seq<Entity>)
    ensures Shifted(es, r, IndexOf(Ids(es), id), delta)
    ensures Ids(r) == Ids(es)
  {
    var i := IndexOf(Ids(es), id);
    if i == -1 then es else es[i := es[i].(booksCount := es[i].booksCount + delta)]
  }

  // ---------------------------------------------------------------------------
  // Fixture data

  /** Every reference names an entity of `es` by its id and its current name. */
  ghost predicate Resolves(refs: seq<Ref>, es: seq<Entity>) {
    forall x :: x in refs ==> exists e :: e in es && e.id == x.id && e.name == x.name
  }

  /** The sample catalog the page loads on start: three books, three authors,
      three categories (one of them with no book yet) and three publishers. */
  function SampleData(): (r: Store)
    ensures BookIds(r.books) == [1, 2, 3]
    ensures forall k :: Ids(r.List(k)) == [1, 2, 3]
  {
    Store(
      books := [
        Book(1, "AP1287", "Spring in Action", "CXEF12389",
             "Comprehensive guide to Spring Framework",
             [Ref(1, "Matt")], [Ref(1, "Programming")], [Ref(1, "Manning Publications")]),
        Book(2, "BP567#R", "Spring Microservices", "KCXEF12389",
             "Building microservices with Spring Boot",
             [Ref(2, "Maxwell")], [Ref(2, "Architecture")], [Ref(2, "O'Reilly Media")]),
        Book(3, "GH67F#", "Spring Boot", "UV#JH",
             "Modern Spring Boot development",
             [Ref(3, "Josh Lang")], [Ref(1, "Programming")], [Ref(3, "Packt Publishing")])
      ],
      authors := [
        Entity(1, "Matt", Some("Spring Framework expert"), 1),
        Entity(2, "Maxwell", Some("Microservices architect"), 1),
        Entity(3, "Josh Lang", Some("Spring Boot specialist"), 1)
      ],
      categories := [
        Entity(1, "Programming", None, 2),
        Entity(2, "Architecture", None, 1),
        Entity(3, "Web Development", None, 0)
      ],
      publishers := [
        Entity(1, "Manning Publications", None, 1),
        Entity(2, "O'Reilly Media", None, 1),
        Entity(3, "Packt Publishing", None, 1)
      ])
  }

  // ---------------------------------------------------------------------------
  // Books

  /** The reference a new book takes to the first entity of `es` with id `id`. */
  function RefTo(es: seq<Entity>, id: int): (r: Ref)
    requires id in Ids(es)
    ensures r.id == id
    ensures exists i :: 0 <= i < |es| && es[i].id == id && r.name == es[i].name
  {
    var i := IndexOf(Ids(es), id);
    Ref(es[i].id, es[i].name)
  }

  /** `addBook`: append a book with the given fields and a fresh `id` that refers to
      one author, one category and one publisher, and count it on each of the three.
      The add form only offers ids that are in the lists, so all three exist. */
  function AddBook(s: Store, id: int, isbn: string, name: string, serialName: string,
                   description: string, authorId: int, categoryId: int, publisherId: int): (r: Store)
    requires authorId in Ids(s.authors)
    requires categoryId in Ids(s.categories)
    requires publisherId in Ids(s.publishers)
    ensures |r.books| == |s.books| + 1 && r.books[..|s.books|] == s.books
    ensures var b := r.books[|s.books|];
      && b.id == id && b.isbn == isbn && b.name == name
      && b.serialName == serialName && b.description == description
      && b.authors == [Ref(authorId, s.authors[IndexOf(Ids(s.authors), authorId)].name)]
      && b.categories == [Ref(categoryId, s.categories[IndexOf(Ids(s.categories), categoryId)].name)]
      && b.publishers == [Ref(publisherId, s.publishers[IndexOf(Ids(s.publishers), publisherId)].name)]
    ensures Shifted(s.authors, r.authors, IndexOf(Ids(s.authors), authorId), 1)
    ensures Shifted(s.categories, r.categories, IndexOf(Ids(s.categories), categoryId), 1)
    ensures Shifted(s.publishers, r.publishers, IndexOf(Ids(s.publishers), publisherId), 1)
  {
    var book := Book(id, isbn, name, serialName, description,
                     [RefTo(s.authors, authorId)],
                     [RefTo(s.categories, categoryId)],
                     [RefTo(s.publishers, publisherId)]);
    Store(s.books + [book],
          Bump(s.authors, authorId, 1),
          Bump(s.categories, categoryId, 1),
          Bump(s.publishers, publisherId, 1))
  }

  /** The number of references in `refs` to id `id`. */
  function Occurrences(refs: seq<Ref>, id: int): nat
  {
    if |refs| == 0 then 0
    else (if refs[0].id == id then 1 else 0) + Occurrences(refs[1..], id)
  }

  /** Position `j` is the first entity of `es` carrying its id, so `find` by that id lands on it. */
  ghost predicate FirstWithItsId(es: seq<Entity>, j: int)
    requires 0 <= j < |es|
  {
    IndexOf(Ids(es), es[j].id) == j
  }

  /** The counter bookkeeping of `deleteBook` for one list: for each reference in turn,
      find the first entity with the referenced id and decrement its `booksCount`,
      skipping references to ids no longer present. The net effect: each entity that
      is the first with its id loses one count per reference to it, all else stays. */
  function Release(es: seq<Entity>, refs: seq<Ref>): (r: seq<Entity>)
    ensures Ids(r) == Ids(es)
    ensures |r| == |es|
    ensures forall j :: 0 <= j < |es| ==>
      r[j] == es[j].(booksCount := es[j].booksCount
                       - if FirstWithItsId(es, j) then Occurrences(refs, es[j].id) else 0)
    decreases |refs|
  {
    if |refs| == 0 then es
    else
      var es' := Bump(es, refs[0].id, -1);
      var r := Release(es', refs[1..]);
      assert forall j :: 0 <= j < |es| ==> FirstWithItsId(es', j) == FirstWithItsId(es, j);
      r
  }

  /** `deleteBook`: remove the first book with id `id` and give back one count on every
      author, category and publisher it refers to that still exists. An unknown id
      leaves the store as it was. */
  function DeleteBook(s: Store, id: int): (r: Store)
    ensures id !in BookIds(s.books) ==> r == s
    ensures id in BookIds(s.books) ==>
      var i := IndexOf(BookIds(s.books), id);
      && r.books == RemoveAt(s.books, i)
      && (forall k: Kind :: |r.List(k)| == |s.List(k)|)
      && forall k: Kind, j :: 0 <= j < |s.List(k)| ==>
           r.List(k)[j] == s.List(k)[j].(booksCount := s.List(k)[j].booksCount
                - if FirstWithItsId(s.List(k), j) then Occurrences(s.books[i].Refs(k), s.List(k)[j].id) else 0)
  {
    var i := IndexOf(BookIds(s.books), id);
    if i == -1 then s
    else
      var b := s.books[i];
      var r := Store(RemoveAt(s.books, i),
                     Release(s.authors, b.authors),
                     Release(s.categories, b.categories),
                     Release(s.publishers, b.publishers));
      assert forall k :: r.List(k) == Release(s.List(k), b.Refs(k));
      r
  }

  /** `updateBook`: replace isbn, name, serial name and description of the first book
      with id `id`, keeping its id and its references; nothing else changes, and an
      unknown id changes nothing. */
  function UpdateBook(s: Store, id: int, isbn: string, name: string, serialName: string,
                      description: string): (r: Store)
    ensures id !in BookIds(s.books) ==> r == s
    ensures r.authors == s.authors && r.categories == s.categories && r.publishers == s.publishers
    ensures BookIds(r.books) == BookIds(s.books)
    ensures id in BookIds(s.books) ==>
      var i := IndexOf(BookIds(s.books), id);
      && r.books[i].isbn == isbn && r.books[i].name == name
      && r.books[i].serialName == serialName && r.books[i].description == description
      && r.books[i].authors == s.books[i].authors
      && r.books[i].categories == s.books[i].categories
      && r.books[i].publishers == s.books[i].publishers
      && forall j :: 0 <= j < |s.books| && j != i ==> r.books[j] == s.books[j]
  {
    var i := IndexOf(BookIds(s.books), id);
    if i == -1 then s
    else
      s.(books := s.books[i := s.books[i].(isbn := isbn, name := name, serialName := serialName,
                                           description := description)])
  }

  // ---------------------------------------------------------------------------
  // Authors, categories and publishers

  /** Append an entity with a fresh `id` and no books yet to the list of kind `k`. */
  function AddEntity(s: Store, k: Kind, id: int, name: string, description: Option<string>): (r: Store)
    ensures r.books == s.books
    ensures r.List(k) == s.List(k) + [Entity(id, name, description, 0)]
    ensures forall k' :: k' != k ==> r.List(k') == s.List(k')
  {
    s.WithList(k, s.List(k) + [Entity(id, name, description, 0)])
  }

  /** `addAuthor`. */
  function AddAuthor(s: Store, id: int, name: string, description: string): (r: Store)
    ensures r.books == s.books && r.categories == s.categories && r.publishers == s.publishers
    ensures r.authors == s.authors + [Entity(id, name, Some(description), 0)]
  {
    AddEntity(s, Authors, id, name, Some(description))
  }

  /** `addCategory`: categories carry no description. */
  function AddCategory(s: Store, id: int, name: string): (r: Store)
    ensures r.books == s.books && r.authors == s.authors && r.publishers == s.publishers
    ensures r.categories == s.categories + [Entity(id, name, None, 0)]
  {
    AddEntity(s, Categories, id, name, None)
  }

  /** `addPublisher`: publishers carry no description. */
  function AddPublisher(s: Store, id: int, name: string): (r: Store)
    ensures r.books == s.books && r.authors == s.authors && r.categories == s.categories
    ensures r.publishers == s.publishers + [Entity(id, name, None, 0)]
  {
    AddEntity(s, Publishers, id, name, None)
  }

  /** The first entity of kind `k` with id `id` gets the new name; its id, description
      and `booksCount` stay, as do all other entities. An unknown id changes nothing. */
  function Rename(s: Store, k: Kind, id: int, name: string): (r: Store)
    ensures r.books == s.books
    ensures forall k' :: k' != k ==> r.List(k') == s.List(k')
    ensures id !in Ids(s.List(k)) ==> r == s
    ensures Ids(r.List(k)) == Ids(s.List(k))
    ensures id in Ids(s.List(k)) ==>
      var i := IndexOf(Ids(s.List(k)), id);
      && r.List(k)[i] == s.List(k)[i].(name := name)
      && forall j :: 0 <= j < |s.List(k)| && j != i ==> r.List(k)[j] == s.List(k)[j]
  {
    var es := s.List(k);
    var i := IndexOf(Ids(es), id);
    if i == -1 then s
    else s.WithList(k, es[i := es[i].(name := name)])
  }

  /** `updateAuthor`: the first author with id `id` gets a new name and description;
      its id and `booksCount` stay, as does everything else. An unknown id changes nothing. */
  function UpdateAuthor(s: Store, id: int, name: string, description: string): (r: Store)
    ensures r.books == s.books && r.categories == s.categories && r.publishers == s.publishers
    ensures id !in Ids(s.authors) ==> r == s
    ensures Ids(r.authors) == Ids(s.authors)
    ensures id in Ids(s.authors) ==>
      var i := IndexOf(Ids(s.authors), id);
      && r.authors[i].name == name && r.authors[i].description == Some(description)
      && r.authors[i].booksCount == s.authors[i].booksCount
      && forall j :: 0 <= j < |s.authors| && j != i ==> r.authors[j] == s.authors[j]
  {
    var i := IndexOf(Ids(s.authors), id);
    if i == -1 then s
    else s.(authors := s.authors[i := s.authors[i].(name := name, description := Some(description))])
  }

  /** `updateCategory`: only the name changes. */
  function UpdateCategory(s: Store, id: int, name: string): (r: Store)
    ensures r.books == s.books && r.authors == s.authors && r.publishers == s.publishers
    ensures id !in Ids(s.categories) ==> r == s
    ensures id in Ids(s.categories) ==>
      var i := IndexOf(Ids(s.categories), id);
      && r.categories == s.categories[i := s.categories[i].(name := name)]
  {
    Rename(s, Categories, id, name)
  }

  /** `updatePublisher`: only the name changes. */
  function UpdatePublisher(s: Store, id: int, name: string): (r: Store)
    ensures r.books == s.books && r.authors == s.authors && r.categories == s.categories
    ensures id !in Ids(s.publishers) ==> r == s
    ensures id in Ids(s.publishers) ==>
      var i := IndexOf(Ids(s.publishers), id);
      && r.publishers == s.publishers[i := s.publishers[i].(name := name)]
  {
    Rename(s, Publishers, id, name)
  }

  /** Remove the first entity of kind `k` with id `id`. Books are not touched, so
      references to the removed entity stay in them. An unknown id changes nothing. */
  function DeleteEntity(s: Store, k: Kind, id: int): (r: Store)
    ensures r.books == s.books
    ensures forall k' :: k' != k ==> r.List(k') == s.List(k')
    ensures id !in Ids(s.List(k)) ==> r == s
    ensures id in Ids(s.List(k)) ==> r.List(k) == RemoveAt(s.List(k), IndexOf(Ids(s.List(k)), id))
  {
    var i := IndexOf(Ids(s.List(k)), id);
    if i == -1 then s else s.WithList(k, RemoveAt(s.List(k), i))
  }

  /** `deleteAuthor`. */
  function DeleteAuthor(s: Store, id: int): (r: Store)
    ensures r.books == s.books && r.categories == s.categories && r.publishers == s.publishers
    ensures id !in Ids(s.authors) ==> r == s
    ensures id in Ids(s.authors) ==> r.authors == RemoveAt(s.authors, IndexOf(Ids(s.authors), id))
  {
    DeleteEntity(s, Authors, id)
  }

  /** `deleteCategory`. */
  function DeleteCategory(s: Store, id: int): (r: Store)
    ensures r.books == s.books && r.authors == s.authors && r.publishers == s.publishers
    ensures id !in Ids(s.categories) ==> r == s
    ensures id in Ids(s.categories) ==> r.categories == RemoveAt(s.categories, IndexOf(Ids(s.categories), id))
  {
    DeleteEntity(s, Categories, id)
  }

  /** `deletePublisher`. */
  function DeletePublisher(s: Store, id: int): (r: Store)
    ensures r.books == s.books && r.authors == s.authors && r.categories == s.categories
    ensures id !in Ids(s.publishers) ==> r == s
    ensures id in Ids(s.publishers) ==> r.publishers == RemoveAt(s.publishers, IndexOf(Ids(s.publishers), id))
  {
    DeleteEntity(s, Publishers, id)
  }
}
