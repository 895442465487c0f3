/** The panier table and the handlers that work on it: add_to_cart,
    update_cart, delete_cart, the cart join of view_cart and finalize_order,
    the per-user DELETE that empties a cart, and the count load_cart_count
    keeps in the session. */
module Cart {
  import opened Sql
  import opened Schema

  type CartRows = seq<Row<CartItem>>

  /** One row of the cart join: panier.id, the product's nom_de_produit, prix
      and image, and the line's quantite. */
  datatype JoinedLine = JoinedLine(cartId: nat, nom: string, prix: Option<real>, image: string, quantite: int)

  /** What view_cart renders: the joined lines and their grand total. */
  datatype CartPage = CartPage(lines: seq<JoinedLine>, total: real)

  function OfUser(uid: nat): Row<CartItem> -> bool {
    (x: Row<CartItem>) => x.data.userId == uid
  }

  function NotOfUser(uid: nat): Row<CartItem> -> bool {
    (x: Row<CartItem>) => x.data.userId != uid
  }

  function OfPair(uid: nat, pid: nat): Row<CartItem> -> bool {
    (x: Row<CartItem>) => x.data.userId == uid && x.data.produitId == pid
  }

  function NotOfProduit(pid: nat): Row<CartItem> -> bool {
    (x: Row<CartItem>) => x.data.produitId != pid
  }

  function SetQuantite(q: int): CartItem -> CartItem {
    (c: CartItem) => c.(quantite := q)
  }

  predicate PositiveQuantities(rows: CartRows) {
    forall x :: x in rows ==> x.data.quantite >= 1
  }

  /** At most one line per (user, product). */
  predicate OneLinePerPair(rows: CartRows) {
    forall x, y ::
      (x in rows && y in rows && x.data.userId == y.data.userId && x.data.produitId == y.data.produitId) ==> x == y
  }

  /** What every cart handler preserves. */
  predicate Invariant(t: Table<CartItem>) {
    Valid(t) && PositiveQuantities(t.rows) && OneLinePerPair(t.rows)
  }

  // ---------------------------------------------------------------------
  // add_to_cart

  /** add_to_cart's read-modify-write: SELECT the (user, product) line; if
      there is one, UPDATE its quantite to the old value plus one, otherwise
      INSERT a line with quantite 1. */
  function AddToCart(t: Table<CartItem>, uid: nat, pid: nat): Table<CartItem> {
    match Find(t.rows, OfPair(uid, pid))
    case Some(line) => Table(Update(t.rows, line.id, SetQuantite(line.data.quantite + 1)), t.nextId)
    case None => Insert(t, CartItem(uid, pid, 1))
  }

  /** add_to_cart binds row[1] + 1 in its UPDATE: past INT64_MAX that raises
      OverflowError and nothing is written. */
  predicate AddOverflows(t: Table<CartItem>, uid: nat, pid: nat) {
    match Find(t.rows, OfPair(uid, pid))
    case Some(line) => !Fits(line.data.quantite + 1)
    case None => false
  }

  /** The increment overflows exactly when the pair has a line whose quantity
      is already INT64_MAX or more. */
  lemma AddOverflowsIff(t: Table<CartItem>, uid: nat, pid: nat)
    requires Invariant(t)
    ensures AddOverflows(t, uid, pid) <==>
      exists k :: 0 <= k < |t.rows| && OfPair(uid, pid)(t.rows[k]) && t.rows[k].data.quantite >= INT64_MAX
  {
    if exists k :: 0 <= k < |t.rows| && OfPair(uid, pid)(t.rows[k]) && t.rows[k].data.quantite >= INT64_MAX {
      var k :| 0 <= k < |t.rows| && OfPair(uid, pid)(t.rows[k]) && t.rows[k].data.quantite >= INT64_MAX;
      assert t.rows[k] in t.rows;
    }
    match Find(t.rows, OfPair(uid, pid))
    case Some(line) =>
      var k :| 0 <= k < |t.rows| && t.rows[k] == line;
    case None =>
  }

  /** With a line for the pair at index k, that line's quantity goes up by
      one and every other row, and the id counter, stay as they were. */
  lemma AddToCartIncrements(t: Table<CartItem>, uid: nat, pid: nat, k: nat)
    requires Invariant(t)
    requires k < |t.rows| && t.rows[k].data.userId == uid && t.rows[k].data.produitId == pid
    ensures var r := AddToCart(t, uid, pid);
      && r.nextId == t.nextId
      && |r.rows| == |t.rows|
      && r.rows[k] == Row(t.rows[k].id, t.rows[k].data.(quantite := t.rows[k].data.quantite + 1))
      && forall i :: 0 <= i < |t.rows| && i != k ==> r.rows[i] == t.rows[i]
  {
    forall j | 0 <= j < k ensures !OfPair(uid, pid)(t.rows[j]) {
      assert t.rows[j] in t.rows && t.rows[k] in t.rows && t.rows[j].id < t.rows[k].id;
    }
    FindFirst(t.rows, OfPair(uid, pid), k);
  }

  /** With no line for the pair, exactly one line is appended, with the next
      id and quantity 1. */
  lemma AddToCartInserts(t: Table<CartItem>, uid: nat, pid: nat)
    requires forall i :: 0 <= i < |t.rows| ==> !(t.rows[i].data.userId == uid && t.rows[i].data.produitId == pid)
    ensures AddToCart(t, uid, pid) == Table(t.rows + [Row(t.nextId, CartItem(uid, pid, 1))], t.nextId + 1)
  {
  }

  lemma AddToCartKeepsInvariant(t: Table<CartItem>, uid: nat, pid: nat)
    requires Invariant(t)
    ensures Invariant(AddToCart(t, uid, pid))
  {
    match Find(t.rows, OfPair(uid, pid))
    case Some(line) =>
      IncrementKeepsInvariant(t, line);
    case None =>
      forall y | y in t.rows ensures !(y.data.userId == uid && y.data.produitId == pid) {
        var j :| 0 <= j < |t.rows| && t.rows[j] == y;
      }
      AppendKeepsShape(t.rows, Row(t.nextId, CartItem(uid, pid, 1)));
  }

  /** Raising the quantity of one of the cart's lines keeps the invariant. */
  lemma IncrementKeepsInvariant(t: Table<CartItem>, line: Row<CartItem>)
    requires Invariant(t) && line in t.rows
    ensures Invariant(Table(Update(t.rows, line.id, SetQuantite(line.data.quantite + 1)), t.nextId))
  {
    UpdateKeepsShape(t.rows, line.id, line.data.quantite + 1);
  }

  /** Two rows of a table with increasing ids that share an id are the same row. */
  lemma SameIdSameIndex<R>(rows: seq<Row<R>>, i: nat, j: nat)
    requires IdsIncreasing(rows) && i < |rows| && j < |rows| && rows[i].id == rows[j].id
    ensures i == j
  {
  }

  /** Writing a positive quantity into a line keeps the cart's shape. */
  lemma UpdateKeepsShape(rows: CartRows, key: nat, q: int)
    requires IdsIncreasing(rows) && PositiveQuantities(rows) && OneLinePerPair(rows) && q >= 1
    ensures PositiveQuantities(Update(rows, key, SetQuantite(q)))
    ensures OneLinePerPair(Update(rows, key, SetQuantite(q)))
  {
    var u := Update(rows, key, SetQuantite(q));
    forall i | 0 <= i < |u|
      ensures u[i].id == rows[i].id && u[i].data.userId == rows[i].data.userId
      ensures u[i].data.produitId == rows[i].data.produitId && u[i].data.quantite >= 1
    {
      assert rows[i] in rows;
    }
    forall x | x in u ensures x.data.quantite >= 1 {
      var i :| 0 <= i < |u| && u[i] == x;
    }
    forall x, y | x in u && y in u && x.data.userId == y.data.userId && x.data.produitId == y.data.produitId
      ensures x == y
    {
      var i :| 0 <= i < |u| && u[i] == x;
      var j :| 0 <= j < |u| && u[j] == y;
      assert rows[i] in rows && rows[j] in rows;
      assert rows[i] == rows[j];
      SameIdSameIndex(rows, i, j);
    }
  }

  /** Appending a line for a pair that has none keeps the cart's shape. */
  lemma AppendKeepsShape(rows: CartRows, x: Row<CartItem>)
    requires PositiveQuantities(rows) && OneLinePerPair(rows) && x.data.quantite >= 1
    requires forall y :: y in rows ==> !(y.data.userId == x.data.userId && y.data.produitId == x.data.produitId)
    ensures PositiveQuantities(rows + [x]) && OneLinePerPair(rows + [x])
  {
    assert forall y :: y in rows + [x] ==> y in rows || y == x;
  }

  /** add_to_cart called n times in a row for the same user and product. */
  function AddRepeatedly(t: Table<CartItem>, uid: nat, pid: nat, n: nat): Table<CartItem> {
    if n == 0 then t else AddToCart(AddRepeatedly(t, uid, pid, n - 1), uid, pid)
  }

  /** Starting with no line for the pair, n >= 1 calls leave exactly one line
      for it, appended with the next id and quantity n; every other row is
      unchanged. */
  lemma {:induction false} AddRepeatedlyFresh(t: Table<CartItem>, uid: nat, pid: nat, n: nat)
    requires Valid(t) && n >= 1
    requires forall i :: 0 <= i < |t.rows| ==> !(t.rows[i].data.userId == uid && t.rows[i].data.produitId == pid)
    ensures AddRepeatedly(t, uid, pid, n) == Table(t.rows + [Row(t.nextId, CartItem(uid, pid, n))], t.nextId + 1)
    ensures Where(AddRepeatedly(t, uid, pid, n).rows, OfPair(uid, pid)) == [Row(t.nextId, CartItem(uid, pid, n))]
  {
    var line := Row(t.nextId, CartItem(uid, pid, n));
    if n == 1 {
      AddToCartInserts(t, uid, pid);
    } else {
      AddRepeatedlyFresh(t, uid, pid, n - 1);
      AddToAppendedLine(t, uid, pid, n);
    }
    NoMatchWhereEmpty(t.rows, OfPair(uid, pid));
    WhereAppend(t.rows, line, OfPair(uid, pid));
  }

  /** One more add_to_cart on the line appended last raises its quantity. */
  lemma AddToAppendedLine(t: Table<CartItem>, uid: nat, pid: nat, n: nat)
    requires Valid(t) && n >= 2
    requires forall i :: 0 <= i < |t.rows| ==> !(t.rows[i].data.userId == uid && t.rows[i].data.produitId == pid)
    ensures AddToCart(Table(t.rows + [Row(t.nextId, CartItem(uid, pid, n - 1))], t.nextId + 1), uid, pid)
         == Table(t.rows + [Row(t.nextId, CartItem(uid, pid, n))], t.nextId + 1)
  {
    var line := Row(t.nextId, CartItem(uid, pid, n));
    var s := Table(t.rows + [Row(t.nextId, CartItem(uid, pid, n - 1))], t.nextId + 1);
    forall j | 0 <= j < |t.rows| ensures !OfPair(uid, pid)(s.rows[j]) {
      assert s.rows[j] == t.rows[j];
    }
    FindFirst(s.rows, OfPair(uid, pid), |t.rows|);
    var u := Update(s.rows, t.nextId, SetQuantite(n));
    forall i | 0 <= i < |u| ensures u[i] == (t.rows + [line])[i] {
      if i < |t.rows| {
        assert s.rows[i] == t.rows[i] && t.rows[i].id < t.nextId;
      }
    }
    assert u == t.rows + [line];
  }

  lemma {:induction false} NoMatchWhereEmpty(rows: CartRows, p: Row<CartItem> -> bool)
    requires forall i :: 0 <= i < |rows| ==> !p(rows[i])
    ensures Where(rows, p) == []
  {
    if rows != [] {
      NoMatchWhereEmpty(rows[1..], p);
    }
  }

  // ---------------------------------------------------------------------
  // update_cart and delete_cart

  /** update_cart: a positive quantity is written into the line with that id;
      zero or a negative quantity deletes the line, as delete_cart does. */
  function UpdateCart(t: Table<CartItem>, id: nat, q: int): (r: Table<CartItem>)
    ensures r.nextId == t.nextId
    ensures q > 0 ==> |r.rows| == |t.rows| && forall i :: 0 <= i < |t.rows| ==>
      r.rows[i] == if t.rows[i].id == id then Row(id, t.rows[i].data.(quantite := q)) else t.rows[i]
    ensures q <= 0 ==> forall x :: x in r.rows <==> x in t.rows && x.id != id
  {
    if q > 0 then Table(Update(t.rows, id, SetQuantite(q)), t.nextId)
    else Delete(t, id)
  }

  /** Deleting lines keeps the cart invariant. */
  lemma WhereKeepsInvariant(t: Table<CartItem>, p: Row<CartItem> -> bool)
    requires Invariant(t)
    ensures Invariant(Table(Where(t.rows, p), t.nextId))
  {
  }

  lemma UpdateCartKeepsInvariant(t: Table<CartItem>, id: nat, q: int)
    requires Invariant(t)
    ensures Invariant(UpdateCart(t, id, q))
  {
    if q > 0 {
      UpdateKeepsShape(t.rows, id, q);
    } else {
      WhereKeepsInvariant(t, NotId(id));
    }
  }

  // ---------------------------------------------------------------------
  // Emptying a user's cart: DELETE FROM panier WHERE user_id = ?

  function ClearUserCart(t: Table<CartItem>, uid: nat): (r: Table<CartItem>)
    ensures r.nextId == t.nextId
    ensures forall x :: x in r.rows <==> x in t.rows && x.data.userId != uid
  {
    Table(Where(t.rows, NotOfUser(uid)), t.nextId)
  }

  // ---------------------------------------------------------------------
  // load_cart_count: SELECT COUNT(*) FROM panier WHERE user_id = ?

  /** The number of the user's cart rows, whether or not their product still exists. */
  function CountLines(rows: CartRows, uid: nat): nat {
    |Where(rows, OfUser(uid))|
  }

  /** After the cart is emptied, the count is zero and the other users'
      counts are what they were. */
  lemma {:induction false} CountAfterClear(rows: CartRows, uid: nat, v: nat)
    ensures CountLines(Where(rows, NotOfUser(uid)), v) == if v == uid then 0 else CountLines(rows, v)
  {
    if rows != [] {
      CountAfterClear(rows[1..], uid, v);
    }
  }

  /** add_to_cart raises the user's count by one exactly when it inserts,
      and leaves every other user's count alone. */
  lemma CountAfterAddToCart(t: Table<CartItem>, uid: nat, pid: nat, v: nat)
    requires Invariant(t)
    ensures CountLines(AddToCart(t, uid, pid).rows, v) ==
      CountLines(t.rows, v) + if v == uid && Find(t.rows, OfPair(uid, pid)).None? then 1 else 0
  {
    match Find(t.rows, OfPair(uid, pid))
    case Some(line) =>
      UpdateKeepsCount(t.rows, line.id, SetQuantite(line.data.quantite + 1), v);
    case None =>
      WhereAppend(t.rows, Row(t.nextId, CartItem(uid, pid, 1)), OfUser(v));
  }

  /** Changing a line's quantity does not change any user's count. */
  lemma {:induction false} UpdateKeepsCount(rows: CartRows, key: nat, f: CartItem -> CartItem, v: nat)
    requires forall c: CartItem :: f(c).userId == c.userId
    ensures CountLines(Update(rows, key, f), v) == CountLines(rows, v)
  {
    if rows != [] {
      UpdateKeepsCount(rows[1..], key, f, v);
      assert Update(rows, key, f)[1..] == Update(rows[1..], key, f);
    }
  }

  // ---------------------------------------------------------------------
  // The cart join of view_cart and finalize_order:
  //   FROM produits p JOIN panier c2 ON p.id = c2.produit_id WHERE c2.user_id = ?

  /** The joined row for one cart line, or none when no product has its id. */
  function JoinRow(produits: seq<Row<ProduitData>>, x: Row<CartItem>): Option<JoinedLine> {
    match Find(produits, HasId(x.data.produitId))
    case Some(p) => Some(JoinedLine(x.id, p.data.nom, p.data.prix, p.data.image, x.data.quantite))
    case None => None
  }

  /** The user's cart lines joined with their products, in cart-row order;
      lines whose product was deleted are dropped, as the inner join drops them. */
  function CartJoin(produits: seq<Row<ProduitData>>, rows: CartRows, uid: nat): seq<JoinedLine> {
    if rows == [] then []
    else
      var rest := CartJoin(produits, rows[1..], uid);
      if rows[0].data.userId == uid && JoinRow(produits, rows[0]).Some? then
        [JoinRow(produits, rows[0]).value] + rest
      else rest
  }

  /** Every line's prix is a number float() accepts. */
  predicate Priced(lines: seq<JoinedLine>) {
    forall l :: l in lines ==> l.prix.Some?
  }

  /** float(prix) for a priced cell; the handlers only use it under Priced. */
  function PriceValue(prix: Option<real>): real {
    if prix.Some? then prix.value else 0.0
  }

  /** view_cart's total_general: the sum of prix * quantite over the lines. */
  function CartTotal(lines: seq<JoinedLine>): real {
    if lines == [] then 0.0
    else PriceValue(lines[0].prix) * (lines[0].quantite as real) + CartTotal(lines[1..])
  }

  /** The price of a product, looked up by id; 0 when there is none. */
  function PriceOf(produits: seq<Row<ProduitData>>, pid: nat): real {
    match Find(produits, HasId(pid))
    case Some(p) => PriceValue(p.data.prix)
    case None => 0.0
  }

  /** The user's lines whose product still exists. */
  function LiveLineOf(produits: seq<Row<ProduitData>>, uid: nat): Row<CartItem> -> bool {
    (x: Row<CartItem>) => x.data.userId == uid && Find(produits, HasId(x.data.produitId)).Some?
  }

  /** Reference definition of a cart's value: price times quantity, summed
      over the cart rows themselves. */
  function LinesValue(produits: seq<Row<ProduitData>>, rows: CartRows): real {
    if rows == [] then 0.0
    else PriceOf(produits, rows[0].data.produitId) * (rows[0].data.quantite as real) + LinesValue(produits, rows[1..])
  }

  /** The joined total is the value of the user's cart rows whose product
      still exists. */
  lemma {:induction false} CartTotalIsLiveValue(produits: seq<Row<ProduitData>>, rows: CartRows, uid: nat)
    ensures CartTotal(CartJoin(produits, rows, uid)) == LinesValue(produits, Where(rows, LiveLineOf(produits, uid)))
  {
    if rows != [] {
      CartTotalIsLiveValue(produits, rows[1..], uid);
      var live := LiveLineOf(produits, uid);
      var w := Where(rows[1..], live);
      var x := rows[0];
      if live(x) {
        var l := JoinRow(produits, x).value;
        assert PriceValue(l.prix) == PriceOf(produits, x.data.produitId) && l.quantite == x.data.quantite;
        assert CartJoin(produits, rows, uid) == [l] + CartJoin(produits, rows[1..], uid);
        assert Where(rows, live) == [x] + w;
        assert ([x] + w)[1..] == w;
        assert ([l] + CartJoin(produits, rows[1..], uid))[1..] == CartJoin(produits, rows[1..], uid);
      } else {
        assert CartJoin(produits, rows, uid) == CartJoin(produits, rows[1..], uid);
        assert Where(rows, live) == w;
      }
    }
  }

  /** A line appears in the join exactly when it is the joined row of one of
      the user's cart rows. */
  lemma {:induction false} JoinMembership(produits: seq<Row<ProduitData>>, rows: CartRows, uid: nat, l: JoinedLine)
    ensures l in CartJoin(produits, rows, uid) <==>
      exists x :: x in rows && x.data.userId == uid && JoinRow(produits, x) == Some(l)
  {
    if rows != [] {
      JoinMembership(produits, rows[1..], uid, l);
      if exists x :: x in rows && x.data.userId == uid && JoinRow(produits, x) == Some(l) {
        var x :| x in rows && x.data.userId == uid && JoinRow(produits, x) == Some(l);
        if x != rows[0] {
          assert x in rows[1..];
        }
      }
      assert forall x :: x in rows[1..] ==> x in rows;
    }
  }

  /** The join has at most one line per cart row of the user, and exactly
      one per row precisely when none of them is orphaned: so the cart count
      sees orphaned rows that the cart page does not. */
  lemma {:induction false} JoinAtMostCount(produits: seq<Row<ProduitData>>, rows: CartRows, uid: nat)
    ensures |CartJoin(produits, rows, uid)| <= CountLines(rows, uid)
    ensures |CartJoin(produits, rows, uid)| == CountLines(rows, uid) <==>
      forall x :: x in rows && x.data.userId == uid ==> JoinRow(produits, x).Some?
  {
    if rows != [] {
      JoinAtMostCount(produits, rows[1..], uid);
      assert forall x :: x in rows[1..] ==> x in rows;
      assert forall x :: x in rows ==> x == rows[0] || x in rows[1..];
    }
  }

  /** Once product pid is deleted, every cart join looks as if the lines for
      pid had been deleted instead; the rows themselves stay in panier. */
  lemma {:induction false} JoinAfterProduitDeleted(produits: seq<Row<ProduitData>>, rows: CartRows, uid: nat, pid: nat)
    ensures CartJoin(Where(produits, NotId(pid)), rows, uid) == CartJoin(produits, Where(rows, NotOfProduit(pid)), uid)
  {
    if rows != [] {
      JoinAfterProduitDeleted(produits, rows[1..], uid, pid);
      var q := rows[0].data.produitId;
      if q == pid {
        var w := Where(produits, NotId(pid));
        assert forall i :: 0 <= i < |w| ==> w[i] in w;
      } else {
        FindInWhere(produits, NotId(pid), HasId(q));
      }
    }
  }

  /** After DELETE FROM panier WHERE user_id = uid, that user's join is empty
      and every other user's join is unchanged. */
  lemma {:induction false} JoinAfterClear(produits: seq<Row<ProduitData>>, rows: CartRows, uid: nat, v: nat)
    ensures CartJoin(produits, Where(rows, NotOfUser(uid)), v) == if v == uid then [] else CartJoin(produits, rows, v)
  {
    if rows != [] {
      JoinAfterClear(produits, rows[1..], uid, v);
    }
  }

  /** The join is priced exactly when every cart row of the user that joins
      a product joins one whose prix float() accepts. */
  lemma PricedJoinIff(produits: seq<Row<ProduitData>>, rows: CartRows, uid: nat)
    ensures Priced(CartJoin(produits, rows, uid)) <==>
      forall x :: x in rows && x.data.userId == uid && JoinRow(produits, x).Some? ==> JoinRow(produits, x).value.prix.Some?
  {
    var lines := CartJoin(produits, rows, uid);
    forall l | l in lines ensures exists x :: x in rows && x.data.userId == uid && JoinRow(produits, x) == Some(l) {
      JoinMembership(produits, rows, uid, l);
    }
    forall x | x in rows && x.data.userId == uid && JoinRow(produits, x).Some? ensures JoinRow(produits, x).value in lines {
      JoinMembership(produits, rows, uid, JoinRow(produits, x).value);
    }
  }

  /** view_cart: a visitor without a session is sent to login; a joined line
      whose prix float() rejects makes the sum raise; otherwise the page lists
      the joined lines, whose total is the value of the user's cart rows whose
      product still exists, and 0 for an empty cart. */
  function ViewCart(s: Session, produits: seq<Row<ProduitData>>, rows: CartRows): (r: View<CartPage>)
    ensures s.userId.None? <==> r == RedirectTo(ToLogin)
    ensures s.userId.Some? ==> (r == ServerError <==> !Priced(CartJoin(produits, rows, s.userId.value)))
    ensures s.userId.Some? && Priced(CartJoin(produits, rows, s.userId.value)) ==>
      && r.Render?
      && r.content.lines == CartJoin(produits, rows, s.userId.value)
      && r.content.total == LinesValue(produits, Where(rows, LiveLineOf(produits, s.userId.value)))
    ensures s.userId.Some? && CountLines(rows, s.userId.value) == 0 ==> r == Render(CartPage([], 0.0))
  {
    match s.userId
    case None => RedirectTo(ToLogin)
    case Some(uid) =>
      var lines := CartJoin(produits, rows, uid);
      CartTotalIsLiveValue(produits, rows, uid);
      JoinAtMostCount(produits, rows, uid);
      if !Priced(lines) then ServerError
      else Render(CartPage(lines, CartTotal(lines)))
  }
}
