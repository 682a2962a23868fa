/** ProductRepository.java: the products table (the inherited JpaRepository operations) and the
    findByName query. */
module ProductPersistence {
  import opened Common
  import opened Text
  import opened ProductModel

  /** No two rows share an id: id is the table's primary key. */
  predicate DistinctIds(rows: seq<Product>) {
    forall i, j :: 0 <= i < j < |rows| ==> rows[i].id != rows[j].id
  }

  lemma DistinctCons(p: Product, rows: seq<Product>)
    requires DistinctIds(rows)
    requires forall q | q in rows :: q.id != p.id
    ensures DistinctIds([p] + rows)
  {
    forall i, j | 0 <= i < j < |[p] + rows| ensures ([p] + rows)[i].id != ([p] + rows)[j].id {
      if i == 0 {
        assert ([p] + rows)[j] == rows[j - 1];
      }
    }
  }

  /** The position of the row with the given id. */
  function IndexOf(rows: seq<Product>, id: string): (r: Option<nat>)
    ensures r.Some? ==> r.value < |rows| && rows[r.value].id == id
    ensures r.None? ==> forall q | q in rows :: q.id != id
    decreases |rows|
  {
    if rows == [] then None
    else if rows[0].id == id then Some(0)
    else
      match IndexOf(rows[1..], id)
      case None => None
      case Some(j) => Some(j + 1)
  }

  /** The row with the given id, if any. */
  function Lookup(rows: seq<Product>, id: string): (r: Option<Product>)
    ensures r.Some? ==> r.value in rows && r.value.id == id
    ensures r.None? ==> forall q | q in rows :: q.id != id
  {
    match IndexOf(rows, id)
    case None => None
    case Some(i) => Some(rows[i])
  }

  /** With distinct ids, looking up finds exactly the row with that id. */
  lemma LookupExact(rows: seq<Product>, id: string, p: Product)
    requires DistinctIds(rows)
    ensures Lookup(rows, id) == Some(p) <==> p in rows && p.id == id
  {
    if p in rows && p.id == id {
      var j :| 0 <= j < |rows| && rows[j] == p;
      var i := IndexOf(rows, id).value;
      assert !(i < j) && !(j < i);
    }
  }

  /** The table without the row with the given id, the other rows in their order. */
  function Without(rows: seq<Product>, id: string): (r: seq<Product>)
    ensures forall q :: q in r <==> q in rows && q.id != id
    decreases |rows|
  {
    if rows == [] then []
    else (if rows[0].id == id then [] else [rows[0]]) + Without(rows[1..], id)
  }

  lemma {:induction false} WithoutDistinct(rows: seq<Product>, id: string)
    requires DistinctIds(rows)
    ensures DistinctIds(Without(rows, id))
    decreases |rows|
  {
    if rows != [] {
      WithoutDistinct(rows[1..], id);
      if rows[0].id != id {
        forall q | q in Without(rows[1..], id) ensures q.id != rows[0].id {
          var j :| 0 <= j < |rows[1..]| && rows[1..][j] == q;
          assert rows[j + 1] == q;
        }
        DistinctCons(rows[0], Without(rows[1..], id));
      }
    }
  }

  /** The WHERE clause: LOWER(name) LIKE LOWER('%' + query + '%'), with the query taken literally. */
  predicate Matches(p: Product, query: string, toLower: string -> string) {
    Contains(toLower(p.name), toLower(query))
  }

  /** The matching rows, in table order. */
  function Filter(rows: seq<Product>, query: string, toLower: string -> string): (r: seq<Product>)
    ensures forall q :: q in r <==> q in rows && Matches(q, query, toLower)
    decreases |rows|
  {
    if rows == [] then []
    else (if Matches(rows[0], query, toLower) then [rows[0]] else []) + Filter(rows[1..], query, toLower)
  }

  lemma {:induction false} FilterDistinct(rows: seq<Product>, query: string, toLower: string -> string)
    requires DistinctIds(rows)
    ensures DistinctIds(Filter(rows, query, toLower))
    decreases |rows|
  {
    if rows != [] {
      FilterDistinct(rows[1..], query, toLower);
      if Matches(rows[0], query, toLower) {
        forall q | q in Filter(rows[1..], query, toLower) ensures q.id != rows[0].id {
          var j :| 0 <= j < |rows[1..]| && rows[1..][j] == q;
          assert rows[j + 1] == q;
        }
        DistinctCons(rows[0], Filter(rows[1..], query, toLower));
      }
    }
  }

  /** ORDER BY name ASC */
  predicate SortedByName(s: seq<Product>) {
    forall i, j :: 0 <= i < j < |s| ==> NameLe(s[i].name, s[j].name)
  }

  /** Inserts p into a list sorted by name, after every row whose name is smaller. */
  function Insert(p: Product, s: seq<Product>): (r: seq<Product>)
    ensures multiset(r) == multiset(s) + multiset{p}
    decreases |s|
  {
    if s == [] then [p]
    else if NameLe(p.name, s[0].name) then [p] + s
    else
      assert s == [s[0]] + s[1..];
      [s[0]] + Insert(p, s[1..])
  }

  lemma SortedTail(s: seq<Product>)
    requires s != [] && SortedByName(s)
    ensures SortedByName(s[1..])
  {
    forall i, j | 0 <= i < j < |s[1..]| ensures NameLe(s[1..][i].name, s[1..][j].name) {
      assert s[1..][i] == s[i + 1] && s[1..][j] == s[j + 1];
    }
  }

  lemma SortedCons(x: Product, t: seq<Product>)
    requires SortedByName(t)
    requires forall q | q in t :: NameLe(x.name, q.name)
    ensures SortedByName([x] + t)
  {
    var r := [x] + t;
    forall i, j | 0 <= i < j < |r| ensures NameLe(r[i].name, r[j].name) {
      assert r[j] == t[j - 1];
      if i == 0 {
        assert t[j - 1] in t;
      } else {
        assert r[i] == t[i - 1];
      }
    }
  }

  lemma InsertMembers(p: Product, s: seq<Product>, q: Product)
    requires q in Insert(p, s)
    ensures q == p || q in s
  {
    assert q in multiset(Insert(p, s));
    if q != p {
      assert q in multiset(s);
    }
  }

  lemma {:induction false} InsertSorted(p: Product, s: seq<Product>)
    requires SortedByName(s)
    ensures SortedByName(Insert(p, s))
    decreases |s|
  {
    if s == [] {
    } else if NameLe(p.name, s[0].name) {
      forall q | q in s ensures NameLe(p.name, q.name) {
        var j :| 0 <= j < |s| && s[j] == q;
        if j > 0 {
          NameLeTransitive(p.name, s[0].name, q.name);
        }
      }
      SortedCons(p, s);
    } else {
      NameLeTotal(p.name, s[0].name);
      SortedTail(s);
      InsertSorted(p, s[1..]);
      var t := Insert(p, s[1..]);
      forall q | q in t ensures NameLe(s[0].name, q.name) {
        InsertMembers(p, s[1..], q);
        if q != p {
          var j :| 0 <= j < |s[1..]| && s[1..][j] == q;
          assert s[j + 1] == q;
        }
      }
      SortedCons(s[0], t);
    }
  }

  /** Insertion sort by name; rows with equal names keep their table order. */
  function SortByName(s: seq<Product>): (r: seq<Product>)
    ensures multiset(r) == multiset(s)
    decreases |s|
  {
    if s == [] then []
    else
      assert s == [s[0]] + s[1..];
      Insert(s[0], SortByName(s[1..]))
  }

  lemma {:induction false} SortByNameSortedDistinct(s: seq<Product>)
    ensures SortedByName(SortByName(s))
    ensures DistinctIds(s) ==> DistinctIds(SortByName(s))
    decreases |s|
  {
    if s != [] {
      SortByNameSortedDistinct(s[1..]);
      InsertSorted(s[0], SortByName(s[1..]));
      if DistinctIds(s) {
        assert DistinctIds(s[1..]) by {
          forall i, j | 0 <= i < j < |s[1..]| ensures s[1..][i].id != s[1..][j].id {
            assert s[1..][i] == s[i + 1] && s[1..][j] == s[j + 1];
          }
        }
        InsertDistinct(s[0], SortByName(s[1..]));
        forall q | q in SortByName(s[1..]) ensures q.id != s[0].id {
          assert q in multiset(SortByName(s[1..]));
          assert q in multiset(s[1..]);
          var j :| 0 <= j < |s[1..]| && s[1..][j] == q;
          assert s[j + 1] == q;
        }
      }
    }
  }

  lemma {:induction false} InsertDistinct(p: Product, s: seq<Product>)
    ensures DistinctIds(s) && (forall q | q in s :: q.id != p.id) ==> DistinctIds(Insert(p, s))
    decreases |s|
  {
    if DistinctIds(s) && (forall q | q in s :: q.id != p.id) {
      if s == [] {
      } else if NameLe(p.name, s[0].name) {
        DistinctCons(p, s);
      } else {
        assert DistinctIds(s[1..]) by {
          forall i, j | 0 <= i < j < |s[1..]| ensures s[1..][i].id != s[1..][j].id {
            assert s[1..][i] == s[i + 1] && s[1..][j] == s[j + 1];
          }
        }
        assert forall q | q in s[1..] :: q in s;
        InsertDistinct(p, s[1..]);
        var t := Insert(p, s[1..]);
        forall q | q in t ensures q.id != s[0].id {
          assert q in multiset(t);
          if q != p {
            assert q in multiset(s[1..]);
            var j :| 0 <= j < |s[1..]| && s[1..][j] == q;
            assert s[j + 1] == q;
          }
        }
        DistinctCons(s[0], t);
      }
    }
  }

  /** findByName: the matching rows sorted by name. */
  function FindByName(rows: seq<Product>, query: string, toLower: string -> string): seq<Product> {
    SortByName(Filter(rows, query, toLower))
  }

  /** The search returns exactly the stored products whose lower-cased name contains the
      lower-cased query, in ascending order of name, each once. */
  lemma FindByNameSpec(rows: seq<Product>, query: string, toLower: string -> string)
    requires DistinctIds(rows)
    ensures SortedByName(FindByName(rows, query, toLower))
    ensures forall q :: q in FindByName(rows, query, toLower) <==> q in rows && Matches(q, query, toLower)
    ensures DistinctIds(FindByName(rows, query, toLower))
  {
    var f := Filter(rows, query, toLower);
    FilterDistinct(rows, query, toLower);
    SortByNameSortedDistinct(f);
    forall q ensures q in SortByName(f) <==> q in f {
      assert q in SortByName(f) <==> q in multiset(SortByName(f));
    }
  }

  class ProductRepository {
    /** The products table in storage order. */
    var rows: seq<Product>

    /** Ids are the primary key, and every stored row passed the entity's constraints when it
        was written. */
    ghost predicate Valid()
      reads this
    {
      DistinctIds(rows) && forall i :: 0 <= i < |rows| ==> ValidEntity(rows[i])
    }

    constructor ()
      ensures Valid() && rows == []
    {
      rows := [];
    }

    /** findById */
    function FindById(id: string): (r: Option<Product>)
      reads this
      ensures r.Some? ==> r.value in rows && r.value.id == id
      ensures r.None? ==> forall q | q in rows :: q.id != id
    {
      Lookup(rows, id)
    }

    /** findAll */
    function FindAll(): (r: seq<Product>)
      requires Valid()
      reads this
      ensures |r| == |rows| && DistinctIds(r)
      ensures forall q | q in r :: FindById(q.id) == Some(q) && ValidEntity(q)
    {
      forall q | q in rows ensures Lookup(rows, q.id) == Some(q) {
        LookupExact(rows, q.id, q);
      }
      rows
    }

    /** findByName */
    function FindByNameQuery(query: string, toLower: string -> string): (r: seq<Product>)
      requires Valid()
      reads this
      ensures SortedByName(r) && DistinctIds(r)
      ensures forall q :: q in r <==> q in rows && Matches(q, query, toLower)
    {
      FindByNameSpec(rows, query, toLower);
      FindByName(rows, query, toLower)
    }

    /** save: a product whose id is stored replaces that row in place; a new one is appended.
        The entity's constraints are checked before the write (a violation is the caller's
        failure path). */
    method Save(p: Product)
      requires Valid() && ValidEntity(p)
      modifies this
      ensures Valid()
      ensures old(IndexOf(rows, p.id)).None? ==> rows == old(rows) + [p]
      ensures old(IndexOf(rows, p.id)).Some? ==> rows == old(rows)[old(IndexOf(rows, p.id)).value := p]
      ensures FindById(p.id) == Some(p)
    {
      var i := IndexOf(rows, p.id);
      if i.None? {
        rows := rows + [p];
        assert rows[|rows| - 1] == p;
      } else {
        rows := rows[i.value := p];
        assert rows[i.value] == p;
      }
      LookupExact(rows, p.id, p);
    }

    /** delete: removes the row of the product; the other rows keep their order. */
    method Delete(p: Product)
      requires Valid()
      modifies this
      ensures Valid()
      ensures rows == Without(old(rows), p.id)
      ensures FindById(p.id) == None
      ensures forall id | id != p.id :: FindById(id) == old(FindById(id))
    {
      ghost var before := rows;
      rows := Without(rows, p.id);
      WithoutDistinct(before, p.id);
      forall id | id != p.id ensures Lookup(rows, id) == Lookup(before, id) {
        if Lookup(before, id).Some? {
          LookupExact(before, id, Lookup(before, id).value);
          LookupExact(rows, id, Lookup(before, id).value);
        }
      }
    }
  }
}
