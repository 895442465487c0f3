/** The commandes table: the rows finalize_order writes, one per joined cart
    line, and the admin listing admin_orders shows. */
module Orders {
  import opened Sql
  import opened Schema
  import opened Cart

  type OrderRows = seq<Row<CommandeData>>

  /** The order finalize_order inserts for one joined cart line: the buyer's
      nom, prenom, email and adresse, the phone from the form, the product
      name, the quantity, and total = float(prix) * quantite. */
  function OrderFor(uid: nat, u: UserData, phone: string, l: JoinedLine): CommandeData {
    CommandeData(uid, u.nom, u.prenom, u.email, u.adresse, phone, l.nom, l.quantite, PriceValue(l.prix) * (l.quantite as real))
  }

  /** The rows finalize_order's loop appends when the next id is firstId. */
  function Snapshot(lines: seq<JoinedLine>, uid: nat, u: UserData, phone: string, firstId: nat): (r: OrderRows)
    ensures |r| == |lines|
  {
    seq(|lines|, i requires 0 <= i < |lines| => Row(firstId + i, OrderFor(uid, u, phone, lines[i])))
  }

  /** The sum of the total column. */
  function OrdersTotal(rows: OrderRows): real {
    if rows == [] then 0.0 else rows[0].data.total + OrdersTotal(rows[1..])
  }

  /** The orders taken from a cart add up to the cart's total. */
  lemma {:induction false} SnapshotTotal(lines: seq<JoinedLine>, uid: nat, u: UserData, phone: string, firstId: nat)
    ensures OrdersTotal(Snapshot(lines, uid, u, phone, firstId)) == CartTotal(lines)
  {
    if lines != [] {
      SnapshotTotal(lines[1..], uid, u, phone, firstId + 1);
      assert Snapshot(lines, uid, u, phone, firstId)[1..] == Snapshot(lines[1..], uid, u, phone, firstId + 1);
    }
  }

  /** Each snapshot row carries the buyer's details, the phone, and the
      line's name, quantity and price times quantity, under consecutive ids. */
  lemma SnapshotAt(lines: seq<JoinedLine>, uid: nat, u: UserData, phone: string, firstId: nat, i: nat)
    requires i < |lines|
    ensures var o := Snapshot(lines, uid, u, phone, firstId)[i];
      && o.id == firstId + i
      && o.data.userId == uid && o.data.nom == u.nom && o.data.prenom == u.prenom
      && o.data.email == u.email && o.data.adresse == u.adresse && o.data.phone == phone
      && o.data.produit == lines[i].nom && o.data.quantite == lines[i].quantite
      && o.data.total == PriceValue(lines[i].prix) * (lines[i].quantite as real)
  {
  }

  /** Taking one more line into the snapshot appends one more row. */
  lemma SnapshotExtend(lines: seq<JoinedLine>, uid: nat, u: UserData, phone: string, firstId: nat, i: nat)
    requires i < |lines|
    ensures Snapshot(lines[..i + 1], uid, u, phone, firstId) ==
      Snapshot(lines[..i], uid, u, phone, firstId) + [Row(firstId + i, OrderFor(uid, u, phone, lines[i]))]
  {
    var a := Snapshot(lines[..i + 1], uid, u, phone, firstId);
    var b := Snapshot(lines[..i], uid, u, phone, firstId) + [Row(firstId + i, OrderFor(uid, u, phone, lines[i]))];
    assert |a| == |b|;
    forall k | 0 <= k < |a| ensures a[k] == b[k] {
    }
  }

  /** finalize_order as a whole: one order per joined line, whose totals add
      up to the value of the user's cart rows whose product still exists;
      afterwards the user has no cart rows, orphans included, so the cart
      page is empty and a second checkout would create no order. */
  lemma CheckoutOutcome(produits: seq<Row<ProduitData>>, t: Table<CartItem>, uid: nat, u: UserData,
                        phone: string, firstId: nat, nextFirstId: nat)
    ensures var lines := CartJoin(produits, t.rows, uid);
      var orders := Snapshot(lines, uid, u, phone, firstId);
      var after := ClearUserCart(t, uid);
      && |orders| == |lines| <= CountLines(t.rows, uid)
      && OrdersTotal(orders) == LinesValue(produits, Where(t.rows, LiveLineOf(produits, uid)))
      && CountLines(after.rows, uid) == 0
      && CartJoin(produits, after.rows, uid) == []
      && Snapshot(CartJoin(produits, after.rows, uid), uid, u, phone, nextFirstId) == []
  {
    var lines := CartJoin(produits, t.rows, uid);
    JoinAtMostCount(produits, t.rows, uid);
    SnapshotTotal(lines, uid, u, phone, firstId);
    CartTotalIsLiveValue(produits, t.rows, uid);
    CountAfterClear(t.rows, uid, uid);
    JoinAfterClear(produits, t.rows, uid, uid);
  }

  /** ORDER BY id DESC: the rows in reverse. */
  function NewestFirst(rows: OrderRows): (r: OrderRows)
    ensures |r| == |rows|
    ensures forall i :: 0 <= i < |rows| ==> r[i] == rows[|rows| - 1 - i]
  {
    if rows == [] then [] else NewestFirst(rows[1..]) + [rows[0]]
  }

  /** On a table whose ids increase, newest first lists ids in strictly
      decreasing order. */
  lemma NewestFirstDescending(rows: OrderRows)
    requires IdsIncreasing(rows)
    ensures forall i, j :: 0 <= i < j < |rows| ==> NewestFirst(rows)[i].id > NewestFirst(rows)[j].id
  {
  }

  /** admin_orders: a session without the admin flag is sent to login;
      otherwise every order is listed, most recent first. */
  function AdminOrders(s: Session, orders: OrderRows): (r: View<OrderRows>)
    ensures !s.isAdmin <==> r == RedirectTo(ToLogin)
    ensures s.isAdmin ==>
      && r.Render?
      && |r.content| == |orders|
      && forall i :: 0 <= i < |orders| ==> r.content[i] == orders[|orders| - 1 - i]
  {
    if !s.isAdmin then RedirectTo(ToLogin) else Render(NewestFirst(orders))
  }
}
