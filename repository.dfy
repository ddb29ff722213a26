/** `ProductRepository` over an in-memory products table: rows keyed by id, kept in
    the physical order a table scan visits them, ids generated by an identity
    sequence. Each call may raise; the `fault` argument says whether and with what
    message it does. */
module Repository {
  import opened Wrappers
  import opened Domain
  import opened ProductQuery

  /** One call made on the repository, with what it was given. */
  datatype RepositoryCall =
    | CreateCall(row: ProductRow)
    | UpdateCall(row: ProductRow)
    | DeleteCall(id: int)
    | GetByIdCall(id: int)
    | FindAllCall(options: FindProductsDto)

  /** The message of the exception `SaveChanges` raises when the insert is refused, as
      it is for a key already in the table. */
  const SaveFailedMessage := "An error occurred while saving the entity changes. See the inner exception for details."
  /** The message of the exception `SaveChanges` raises when an update matches no row. */
  const NoRowUpdatedMessage :=
    "The database operation was expected to affect 1 row(s), but actually affected 0 row(s); "
    + "data may have been modified or deleted since entities were loaded. "
    + "See https://go.microsoft.com/fwlink/?LinkId=527962 for information on understanding "
    + "and handling optimistic concurrency exceptions."

  predicate Distinct(ids: seq<int>) {
    forall i, j :: 0 <= i < j < |ids| ==> ids[i] != ids[j]
  }

  /** `ids` without `id`, the others in their order. */
  function Without(ids: seq<int>, id: int): (r: seq<int>)
    requires Distinct(ids)
    ensures Distinct(r)
    ensures forall k :: k in r <==> k in ids && k != id
    ensures id !in ids ==> r == ids
  {
    if ids == [] then []
    else
      assert forall i :: 0 <= i < |ids| - 1 ==> ids[1..][i] == ids[i + 1];
      assert ids[0] !in ids[1..];
      assert ids == [ids[0]] + ids[1..];
      (if ids[0] == id then [] else [ids[0]]) + Without(ids[1..], id)
  }

  /** The object EF builds for a row it reads. */
  method Materialize(row: ProductRow) returns (p: Product)
    ensures fresh(p) && p.Row() == row
  {
    p := new Product(row.name, row.description, row.availableQuantity, row.price);
    p.id := row.id;
  }

  /** The field values of a list of products. */
  function RowsOf(ps: seq<Product>): (r: seq<ProductRow>)
    reads set p | p in ps
    ensures |r| == |ps| && forall i :: 0 <= i < |ps| ==> r[i] == ps[i].Row()
  {
    if ps == [] then [] else [ps[0].Row()] + RowsOf(ps[1..])
  }

  /** The list `ToListAsync` materialises: a new object per row, in order. */
  method MaterializeAll(rows: seq<ProductRow>) returns (ps: seq<Product>)
    ensures RowsOf(ps) == rows
    ensures forall i :: 0 <= i < |ps| ==> fresh(ps[i])
    ensures forall i, j :: 0 <= i < j < |ps| ==> ps[i] != ps[j]
  {
    ps := [];
    for n := 0 to |rows|
      invariant |ps| == n
      invariant forall i :: 0 <= i < n ==> fresh(ps[i]) && ps[i].Row() == rows[i]
      invariant forall i, j :: 0 <= i < j < n ==> ps[i] != ps[j]
    {
      var p := Materialize(rows[n]);
      ps := ps + [p];
    }
  }

  class ProductRepository {
    /** The rows of the table, by id. */
    var table: map<int, ProductRow>
    /** The ids of the rows, in the order a scan of the table visits them. */
    var ids: seq<int>
    /** The next value of the identity sequence behind the Id column. */
    var nextId: int
    ghost var calls: seq<RepositoryCall>

    /** Every row sits under its own id, which is never the unset id 0, and the scan
        order lists each row once. */
    ghost predicate Valid()
      reads this
    {
      && Distinct(ids)
      && (forall k :: k in table <==> k in ids)
      && (forall k :: k in table ==> table[k].id == k && k != 0)
      && nextId >= 1
    }

    /** A repository over an empty table. */
    constructor ()
      ensures Valid() && table == map[] && calls == []
    {
      table := map[];
      ids := [];
      nextId := 1;
      calls := [];
    }

    /** The rows of the table, in scan order. */
    function Scan(): (r: seq<ProductRow>)
      reads this
      requires Valid()
      ensures |r| == |ids|
      ensures forall x :: x in r <==> exists k :: k in table && table[k] == x
    {
      var ids, table := this.ids, this.table;
      assert forall i :: 0 <= i < |ids| ==> ids[i] in this.ids && ids[i] in table;
      var r := seq(|ids|, i requires 0 <= i < |ids| => table[ids[i]]);
      assert forall k :: k in table ==> exists i :: 0 <= i < |ids| && ids[i] == k && r[i] == table[k];
      r
    }

    /** Adds `product` to the table, as `AddAsync` and `SaveChangesAsync` do: an unset id
        (0) is replaced by the next value of the identity sequence, which is consumed
        even when the insert is refused; an id already in the table is refused. */
    method Insert(product: Product) returns (r: Attempt<Product>)
      requires Valid()
      modifies this, product
      ensures Valid()
      ensures nextId == if old(product.id) == 0 then old(nextId) + 1 else old(nextId)
      ensures calls == old(calls)
      ensures var id := if old(product.id) == 0 then old(nextId) else old(product.id);
        && (r.Threw? <==> id in old(table))
        && (r.Threw? ==> r == Threw(SaveFailedMessage) && table == old(table) && ids == old(ids) && unchanged(product))
        && (r.Returned? ==>
              r.value == product && product.Row() == old(product.Row()).(id := id)
              && table == old(table)[id := product.Row()] && ids == old(ids) + [id])
    {
      var id := product.id;
      if id == 0 {
        id := nextId;
        nextId := nextId + 1;
      }
      if id in table {
        return Threw(SaveFailedMessage);
      }
      product.id := id;
      table := table[id := product.Row()];
      ids := ids + [id];
      r := Returned(product);
    }

    /** `Create`: inserts the product and returns the same object, its id now set. */
    method Create(productToCreate: Product, fault: Option<string>) returns (r: Attempt<Product>)
      requires Valid()
      modifies this, productToCreate
      ensures Valid()
      ensures calls == old(calls) + [CreateCall(old(productToCreate.Row()))]
      ensures fault.Some? ==>
        r == Threw(fault.value) && table == old(table) && ids == old(ids) && nextId == old(nextId) && unchanged(productToCreate)
      ensures fault.None? ==>
        var id := if old(productToCreate.id) == 0 then old(nextId) else old(productToCreate.id);
        && nextId == (if old(productToCreate.id) == 0 then old(nextId) + 1 else old(nextId))
        && (r.Threw? <==> id in old(table))
        && (r.Threw? ==> r == Threw(SaveFailedMessage) && table == old(table) && ids == old(ids) && unchanged(productToCreate))
        && (r.Returned? ==>
              r.value == productToCreate && productToCreate.Row() == old(productToCreate.Row()).(id := id)
              && table == old(table)[id := productToCreate.Row()] && ids == old(ids) + [id])
    {
      calls := calls + [CreateCall(productToCreate.Row())];
      if fault.Some? {
        return Threw(fault.value);
      }
      r := Insert(productToCreate);
    }

    /** `Update`: writes the product's fields to the row with its id and returns the
        same object. A product whose id is unset is inserted instead, as EF treats an
        entity without a key as new; a row that is gone makes the save fail. */
    method Update(productToUpdate: Product, fault: Option<string>) returns (r: Attempt<Product>)
      requires Valid()
      modifies this, productToUpdate
      ensures Valid()
      ensures calls == old(calls) + [UpdateCall(old(productToUpdate.Row()))]
      ensures fault.Some? ==> r == Threw(fault.value)
      ensures fault.Some? || old(productToUpdate.id) != 0 ==>
        nextId == old(nextId) && ids == old(ids) && unchanged(productToUpdate)
      ensures fault.None? && old(productToUpdate.id) != 0 ==>
        && (r.Threw? <==> productToUpdate.id !in old(table))
        && (r.Threw? ==> r == Threw(NoRowUpdatedMessage))
        && (r.Returned? ==> r.value == productToUpdate)
      ensures r.Threw? && (fault.Some? || old(productToUpdate.id) != 0) ==> table == old(table)
      ensures r.Returned? && old(productToUpdate.id) != 0 ==>
        table == old(table)[productToUpdate.id := productToUpdate.Row()]
      ensures fault.None? && old(productToUpdate.id) == 0 ==>
        && nextId == old(nextId) + 1
        && (r.Threw? <==> old(nextId) in old(table))
        && (r.Threw? ==> r == Threw(SaveFailedMessage) && table == old(table) && ids == old(ids) && unchanged(productToUpdate))
        && (r.Returned? ==>
              r.value == productToUpdate && productToUpdate.Row() == old(productToUpdate.Row()).(id := old(nextId))
              && table == old(table)[old(nextId) := productToUpdate.Row()] && ids == old(ids) + [old(nextId)])
    {
      calls := calls + [UpdateCall(productToUpdate.Row())];
      if fault.Some? {
        return Threw(fault.value);
      }
      if productToUpdate.id == 0 {
        r := Insert(productToUpdate);
        return;
      }
      if productToUpdate.id !in table {
        return Threw(NoRowUpdatedMessage);
      }
      table := table[productToUpdate.id := productToUpdate.Row()];
      r := Returned(productToUpdate);
    }

    /** `Delete`: removes the row with this id; an id not in the table is a no-op. */
    method Delete(id: int, fault: Option<string>) returns (r: Attempt<()>)
      requires Valid()
      modifies this
      ensures Valid()
      ensures calls == old(calls) + [DeleteCall(id)]
      ensures nextId == old(nextId)
      ensures fault.Some? ==> r == Threw(fault.value) && table == old(table) && ids == old(ids)
      ensures fault.None? ==> r == Returned(()) && table == old(table) - {id} && ids == Without(old(ids), id)
    {
      calls := calls + [DeleteCall(id)];
      if fault.Some? {
        return Threw(fault.value);
      }
      if id !in table {
        return Returned(());
      }
      table := table - {id};
      ids := Without(ids, id);
      r := Returned(());
    }

    /** `GetById`: a new object holding the row with this id, or None when there is no
        such row. */
    method GetById(id: int, fault: Option<string>) returns (r: Attempt<Option<Product>>)
      modifies this`calls
      ensures calls == old(calls) + [GetByIdCall(id)]
      ensures fault.Some? ==> r == Threw(fault.value)
      ensures fault.None? ==> r.Returned? && (r.value.Some? <==> id in table)
      ensures r.Returned? && r.value.Some? ==> fresh(r.value.value) && r.value.value.Row() == table[id]
    {
      calls := calls + [GetByIdCall(id)];
      if fault.Some? {
        return Threw(fault.value);
      }
      if id !in table {
        return Returned(None);
      }
      var p := Materialize(table[id]);
      r := Returned(Some(p));
    }

    /** `FindAll`: the page the query selects from a scan of the table, with the offset
        computed in 32-bit arithmetic as the source computes it, as new objects. */
    method FindAll(options: FindProductsDto, fault: Option<string>) returns (r: Attempt<seq<Product>>)
      requires Valid()
      modifies this`calls
      ensures calls == old(calls) + [FindAllCall(options)]
      ensures fault.Some? ==> r == Threw(fault.value)
      ensures fault.None? && QueryAsWritten(Scan(), options).Threw? ==> r == Threw(QueryAsWritten(Scan(), options).message)
      ensures fault.None? && QueryAsWritten(Scan(), options).Returned? ==>
        r.Returned? && RowsOf(r.value) == QueryAsWritten(Scan(), options).value
      ensures r.Returned? ==> forall i :: 0 <= i < |r.value| ==> fresh(r.value[i])
    {
      calls := calls + [FindAllCall(options)];
      if fault.Some? {
        return Threw(fault.value);
      }
      match QueryAsWritten(Scan(), options)
      case Threw(m) =>
        r := Threw(m);
      case Returned(rows) =>
        var products := MaterializeAll(rows);
        r := Returned(products);
    }
  }
}
