/** A storefront session from start to checkout, followed through the
    handlers' contracts: user A adds product "Pen" (price 2.50) twice and
    product "Book" (price 10.00) once, then checks out. */
module Scenario {
  import opened Sql
  import opened Schema
  import Auth
  import Cart
  import Orders
  import Shop

  const ADMIN := Row(1, Auth.SuperAdmin("admin-hash"))
  const USER_A := Row(2, UserData("A", "B", "a@site.com", "Rue 1", "pw-hash", false))
  const PEN := Row(1, ProduitData("Pen", "Papeterie", Some(2.5), "Stylo", "pen.png"))
  const BOOK := Row(2, ProduitData("Book", "Livres", Some(10.0), "Roman", "book.png"))
  const CART_1 := Table([Row(1, CartItem(2, 1, 1))], 2)
  const CART_2 := Table([Row(1, CartItem(2, 1, 2))], 2)
  const CART_3 := Table([Row(1, CartItem(2, 1, 2)), Row(2, CartItem(2, 2, 1))], 3)
  const LINES := [Cart.JoinedLine(1, "Pen", Some(2.5), "pen.png", 2), Cart.JoinedLine(2, "Book", Some(10.0), "book.png", 1)]

  /** The password check the scenario's hashes agree with. */
  function Check(h: string, p: string): bool {
    h == p + "-hash"
  }

  lemma AdminLogsIn()
    ensures Auth.Authenticate([ADMIN], Auth.ADMIN_EMAIL, "admin", Check) == Some(ADMIN)
  {
    FindFirst([ADMIN], Auth.WithEmail(Auth.ADMIN_EMAIL), 0);
  }

  lemma NotRegistered()
    ensures !Auth.HasEmail([ADMIN], "a@site.com")
  {
    assert "a@site.com"[1] != Auth.ADMIN_EMAIL[1];
    assert !Auth.WithEmail("a@site.com")([ADMIN][0]);
  }

  lemma UserLogsIn()
    ensures Auth.HasEmail([ADMIN, USER_A], "a@site.com")
    ensures Auth.Authenticate([ADMIN, USER_A], "a@site.com", "pw", Check) == Some(USER_A)
  {
    assert "a@site.com"[1] != Auth.ADMIN_EMAIL[1];
    assert !Auth.WithEmail("a@site.com")([ADMIN, USER_A][0]);
    FindFirst([ADMIN, USER_A], Auth.WithEmail("a@site.com"), 1);
  }

  lemma CartStep1()
    ensures !Cart.AddOverflows(Create(), 2, 1) && Cart.AddToCart(Create(), 2, 1) == CART_1
  {
    Cart.AddToCartInserts(Create(), 2, 1);
  }

  lemma CartStep2()
    ensures !Cart.AddOverflows(CART_1, 2, 1) && Cart.AddToCart(CART_1, 2, 1) == CART_2
  {
    FindFirst(CART_1.rows, Cart.OfPair(2, 1), 0);
    Cart.AddToCartIncrements(CART_1, 2, 1, 0);
  }

  lemma CartStep3()
    ensures !Cart.AddOverflows(CART_2, 2, 2) && Cart.AddToCart(CART_2, 2, 2) == CART_3
  {
    Cart.AddToCartInserts(CART_2, 2, 2);
  }

  lemma CartCount()
    ensures Cart.CountLines(CART_3.rows, 2) == 2
  {
    assert Cart.OfUser(2)(CART_3.rows[0]) && Cart.OfUser(2)(CART_3.rows[1]);
  }

  lemma JoinSteps()
    ensures Cart.CartJoin([PEN, BOOK], CART_3.rows, 2) == LINES
    ensures Cart.Priced(LINES) && Cart.CartTotal(LINES) == 15.0
  {
    var produits := [PEN, BOOK];
    FindFirst(produits, HasId(1), 0);
    FindFirst(produits, HasId(2), 1);
    assert Cart.JoinRow(produits, CART_3.rows[0]) == Some(LINES[0]);
    assert Cart.JoinRow(produits, CART_3.rows[1]) == Some(LINES[1]);
    var rows := CART_3.rows;
    assert rows[1..][1..] == [];
    assert Cart.CartJoin(produits, rows[1..], 2) == [LINES[1]];
    assert Cart.CartJoin(produits, rows, 2) == [LINES[0]] + [LINES[1]];
  }

  lemma CheckoutSteps()
    ensures Find([ADMIN, USER_A], HasId(2)) == Some(USER_A)
    ensures var o := Orders.Snapshot(LINES, 2, USER_A.data, "0340000000", 1);
      |o| == 2 && o[0].data.total == 5.0 && o[1].data.total == 10.0
    ensures Cart.CountLines(Cart.ClearUserCart(CART_3, 2).rows, 2) == 0
  {
    FindFirst([ADMIN, USER_A], HasId(2), 1);
    Orders.SnapshotAt(LINES, 2, USER_A.data, "0340000000", 1, 0);
    Orders.SnapshotAt(LINES, 2, USER_A.data, "0340000000", 1, 1);
    Cart.CountAfterClear(CART_3.rows, 2, 2);
  }

  /** The store after the admin has added both products and logged out. */
  const STOCKED := Shop.Database(Table([ADMIN], 2), Table([PEN, BOOK], 3), Create(), Create(), Create())
  /** ... after user A has registered. */
  const REGISTERED := STOCKED.(users := Table([ADMIN, USER_A], 3))
  /** ... after A has filled the cart. */
  const FILLED := REGISTERED.(panier := CART_3)

  /** A new store whose seeded superadmin has logged in. */
  method Open() returns (app: Shop.App)
    ensures fresh(app)
    ensures app.Valid() && app.Tables() == STOCKED.(produits := Create())
    ensures app.session == EMPTY_SESSION.(userId := Some(1), isAdmin := true, email := Some(Auth.ADMIN_EMAIL))
  {
    app := new Shop.App();
    app.CreateSuperadmin("admin-hash");
    assert app.users.rows == [ADMIN];
    AdminLogsIn();
    var resp := app.Login(Auth.ADMIN_EMAIL, "admin", Check);
  }

  /** The admin adds Pen and Book, then logs out. */
  method Stock(app: Shop.App)
    requires app.Valid() && app.Tables() == STOCKED.(produits := Create())
    requires app.session == EMPTY_SESSION.(userId := Some(1), isAdmin := true, email := Some(Auth.ADMIN_EMAIL))
    modifies app
    ensures app.Valid() && app.Tables() == STOCKED && app.session == EMPTY_SESSION
  {
    var resp := app.AddProduit("Pen", "Papeterie", Some(2.5), "Stylo", "pen.png");
    assert app.produits == Table([PEN], 2);
    resp := app.AddProduit("Book", "Livres", Some(10.0), "Roman", "book.png");
    assert app.produits == Table([PEN, BOOK], 3);
    resp := app.Logout();
  }

  /** A registers; registering the same email again is refused; A logs in. */
  method Register(app: Shop.App)
    requires app.Valid() && app.Tables() == STOCKED && app.session == EMPTY_SESSION
    modifies app
    ensures app.Valid() && app.Tables() == REGISTERED
    ensures app.session == EMPTY_SESSION.(userId := Some(2), email := Some("a@site.com"))
  {
    NotRegistered();
    var resp := app.CreateUser("A", "B", "a@site.com", "Rue 1", "pw", "pw", "pw-hash");
    assert resp == Redirect(ToLogin);
    UserLogsIn();
    resp := app.CreateUser("A", "B", "a@site.com", "Rue 1", "pw", "pw", "pw-hash");
    assert resp == Redirect(ToCreateUser);
    resp := app.Login("a@site.com", "pw", Check);
  }

  /** A adds Pen, Pen again, then Book: two lines, and the cart page lists
      Pen x2 and Book x1 for 15.00. */
  method Fill(app: Shop.App)
    requires app.Valid() && app.Tables() == REGISTERED
    requires app.session == EMPTY_SESSION.(userId := Some(2), email := Some("a@site.com"))
    modifies app
    ensures app.Valid() && app.Tables() == FILLED
    ensures app.session == EMPTY_SESSION.(userId := Some(2), email := Some("a@site.com"), cartCount := 2)
  {
    CartStep1();
    var resp := app.AddToCart(1);
    CartStep2();
    resp := app.AddToCart(1);
    CartStep3();
    resp := app.AddToCart(2);
    CartCount();
    app.LoadCartCount();
  }

  method PenAndBook() {
    var app := Open();
    Stock(app);
    Register(app);
    Fill(app);

    JoinSteps();
    var page := Cart.ViewCart(app.session, app.produits.rows, app.panier.rows);
    assert page == Render(Cart.CartPage(LINES, 15.0));

    CheckoutSteps();
    var resp := app.FinalizeOrder("0340000000");
    assert |app.commandes.rows| == 2;
    assert app.commandes.rows[0].data.total == 5.0 && app.commandes.rows[1].data.total == 10.0;
    page := Cart.ViewCart(app.session, app.produits.rows, app.panier.rows);
    assert page == Render(Cart.CartPage([], 0.0));
  }
}
