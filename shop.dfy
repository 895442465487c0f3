/** The application's state: the five SQLite tables and the session, with one
    method per request handler that writes to them. Each method commits what
    the handler commits; a handler that raises before its commit leaves every
    table as it was. */
module Shop {
  import opened Sql
  import opened Schema
  import Auth
  import Catalog
  import Cart
  import Orders

  /** The contents of all five tables at once. */
  datatype Database = Database(
    users: Table<UserData>,
    produits: Table<ProduitData>,
    panier: Table<CartItem>,
    commandes: Table<CommandeData>,
    apropos: Table<AproposData>)

  class App {
    var users: Table<UserData>
    var produits: Table<ProduitData>
    var panier: Table<CartItem>
    var commandes: Table<CommandeData>
    var apropos: Table<AproposData>
    var session: Session

    /** Every table's ids are in order and below its counter, emails are
        unique, and the cart has at most one line per (user, product), each
        with a positive quantity. */
    ghost predicate Valid()
      reads this
    {
      && Sql.Valid(users) && Auth.UniqueEmails(users.rows)
      && Sql.Valid(produits)
      && Cart.Invariant(panier)
      && Sql.Valid(commandes)
      && Sql.Valid(apropos)
    }

    function Tables(): Database
      reads this
    {
      Database(users, produits, panier, commandes, apropos)
    }

    /** init_db and init_panier on a new database file, and a new session. */
    constructor ()
      ensures Valid() && session == EMPTY_SESSION
      ensures Tables() == Database(Create(), Create(), Create(), Create(), Create())
    {
      users, produits, panier, commandes, apropos := Create(), Create(), Create(), Create(), Create();
      session := EMPTY_SESSION;
    }

    /** create_superadmin: insert the admin account unless its email is taken. */
    method CreateSuperadmin(hashed: string)
      requires Valid()
      modifies this
      ensures Valid() && session == old(session)
      ensures Tables() == old(Tables()).(users := Auth.SeedAdmin(old(users), hashed))
    {
      if !Auth.HasEmail(users.rows, Auth.ADMIN_EMAIL) {
        users := Insert(users, Auth.SuperAdmin(hashed));
      }
    }

    /** create_user (POST): mismatched passwords and a registered email
        insert nothing; otherwise one user is inserted, not an admin.
        hashed is what generate_password_hash returned for the password. */
    method CreateUser(nom: string, prenom: string, email: string, adresse: string,
                      password: string, confirm: string, hashed: string) returns (resp: Response)
      requires Valid()
      modifies this
      ensures Valid() && session == old(session)
      ensures password != confirm ==> resp == Redirect(ToCreateUser) && Tables() == old(Tables())
      ensures password == confirm && Auth.HasEmail(old(users.rows), email) ==>
        resp == Redirect(ToCreateUser) && Tables() == old(Tables())
      ensures password == confirm && !Auth.HasEmail(old(users.rows), email) ==>
        && resp == Redirect(ToLogin)
        && Tables() == old(Tables()).(users := Insert(old(users), UserData(nom, prenom, email, adresse, hashed, false)))
    {
      if password != confirm {
        return Redirect(ToCreateUser);
      }
      if Auth.HasEmail(users.rows, email) {
        // the UNIQUE constraint raises IntegrityError and the INSERT is rejected
        return Redirect(ToCreateUser);
      }
      var d := UserData(nom, prenom, email, adresse, hashed, false);
      Auth.InsertNewEmailKeepsUnique(users, d);
      users := Insert(users, d);
      resp := Redirect(ToLogin);
    }

    /** login (POST): on a known email whose hash check accepts the password,
        the session gets the user's id, admin flag and email; otherwise the
        session is left as it was. check stands for check_password_hash. */
    method Login(email: string, password: string, check: (string, string) -> bool) returns (resp: Response)
      modifies this
      ensures Tables() == old(Tables())
      ensures match Auth.Authenticate(users.rows, email, password, check)
        case Some(u) =>
          resp == Redirect(ToIndex) &&
          session == old(session).(userId := Some(u.id), isAdmin := u.data.isAdmin, email := Some(email))
        case None =>
          resp == Redirect(ToLogin) && session == old(session)
    {
      var found := Find(users.rows, Auth.WithEmail(email));
      if found.Some? && check(found.value.data.password, password) {
        var u := found.value;
        session := session.(userId := Some(u.id), isAdmin := u.data.isAdmin, email := Some(email));
        resp := Redirect(ToIndex);
      } else {
        resp := Redirect(ToLogin);
      }
    }

    /** logout: the session is cleared. */
    method Logout() returns (resp: Response)
      modifies this
      ensures Tables() == old(Tables()) && session == EMPTY_SESSION && resp == Redirect(ToIndex)
    {
      session := EMPTY_SESSION;
      resp := Redirect(ToIndex);
    }

    /** admin (POST): an admin adds a product; anyone else is sent to login.
        prix is the submitted text as SQLite stores it in the REAL column:
        a number, or None for text that float() would reject. */
    method AddProduit(nom: string, categorie: string, prix: Option<real>, description: string, image: string)
      returns (resp: Response)
      requires Valid()
      modifies this
      ensures Valid() && session == old(session)
      ensures !old(session).isAdmin ==> resp == Redirect(ToLogin) && Tables() == old(Tables())
      ensures old(session).isAdmin ==>
        && resp == Redirect(ToAdmin)
        && Tables() == old(Tables()).(produits := Insert(old(produits), ProduitData(nom, categorie, prix, description, image)))
    {
      if !session.isAdmin {
        return Redirect(ToLogin);
      }
      produits := Insert(produits, ProduitData(nom, categorie, prix, description, image));
      resp := Redirect(ToAdmin);
    }

    /** delete_produit: the product row goes, with no admin check; its cart
        lines stay in panier and the orders that name it are untouched. An
        id past INT64_MAX cannot be bound and raises. */
    method DeleteProduit(id: nat) returns (resp: Response)
      requires Valid()
      modifies this
      ensures Valid() && session == old(session)
      ensures !Fits(id) ==> resp == InternalError && Tables() == old(Tables())
      ensures Fits(id) ==> resp == Redirect(ToAdmin) && Tables() == old(Tables()).(produits := Delete(old(produits), id))
    {
      if !Fits(id) {
        return InternalError;
      }
      produits := Delete(produits, id);
      resp := Redirect(ToAdmin);
    }

    /** edit_produit (POST), with no admin check: a price that float() rejects
        raises before the UPDATE; otherwise the product's columns are
        rewritten and its image is replaced only when a file came with the
        form. file is the stored filename of that upload. An id past
        INT64_MAX makes the UPDATE raise. */
    method EditProduit(id: nat, nom: string, categorie: string, prix: Option<real>,
                       description: string, file: Option<string>) returns (resp: Response)
      requires Valid()
      modifies this
      ensures Valid() && session == old(session)
      ensures (prix.None? || !Fits(id)) ==> resp == InternalError && Tables() == old(Tables())
      ensures prix.Some? && Fits(id) ==>
        && resp == Redirect(ToAdmin)
        && Tables() == old(Tables()).(produits := Catalog.EditProduit(old(produits), id, nom, categorie, prix.value, description, file))
    {
      if prix.None? || !Fits(id) {
        return InternalError;
      }
      produits := Catalog.EditProduit(produits, id, nom, categorie, prix.value, description, file);
      resp := Redirect(ToAdmin);
    }

    /** add_to_cart: a visitor without a session is sent to login; otherwise
        the user's line for the product is incremented or inserted. The
        product id is not checked against produits. A product id past
        INT64_MAX, or an increment past it, raises before anything is written. */
    method AddToCart(pid: nat) returns (resp: Response)
      requires Valid()
      modifies this
      ensures Valid() && session == old(session)
      ensures old(session).userId.None? ==> resp == Redirect(ToLogin) && Tables() == old(Tables())
      ensures old(session).userId.Some? && (!Fits(pid) || Cart.AddOverflows(old(panier), old(session).userId.value, pid)) ==>
        resp == InternalError && Tables() == old(Tables())
      ensures old(session).userId.Some? && Fits(pid) && !Cart.AddOverflows(old(panier), old(session).userId.value, pid) ==>
        && resp == Redirect(ToProduit(pid))
        && Tables() == old(Tables()).(panier := Cart.AddToCart(old(panier), old(session).userId.value, pid))
    {
      if session.userId.None? {
        return Redirect(ToLogin);
      }
      if !Fits(pid) || Cart.AddOverflows(panier, session.userId.value, pid) {
        return InternalError;
      }
      Cart.AddToCartKeepsInvariant(panier, session.userId.value, pid);
      panier := Cart.AddToCart(panier, session.userId.value, pid);
      resp := Redirect(ToProduit(pid));
    }

    /** load_cart_count, run before every request: the session's cart_count
        becomes the number of the user's cart rows, orphans included, or 0
        without a user. */
    method LoadCartCount()
      modifies this
      ensures Tables() == old(Tables())
      ensures session == old(session).(cartCount :=
        if old(session).userId.Some? then Cart.CountLines(panier.rows, old(session).userId.value) else 0)
    {
      match session.userId
      case Some(uid) =>
        session := session.(cartCount := Cart.CountLines(panier.rows, uid));
      case None =>
        session := session.(cartCount := 0);
    }

    /** delete_cart: the line with that id goes, whoever owns it; an id past
        INT64_MAX raises. */
    method DeleteCart(id: nat) returns (resp: Response)
      requires Valid()
      modifies this
      ensures Valid() && session == old(session)
      ensures !Fits(id) ==> resp == InternalError && Tables() == old(Tables())
      ensures Fits(id) ==> resp == Redirect(ToCart) && Tables() == old(Tables()).(panier := Delete(old(panier), id))
    {
      if !Fits(id) {
        return InternalError;
      }
      Cart.WhereKeepsInvariant(panier, NotId(id));
      panier := Delete(panier, id);
      resp := Redirect(ToCart);
    }

    /** update_cart, with no login or ownership check: a quantity that int()
        rejects raises before any change, and so does binding an id, or a
        positive quantity, past INT64_MAX; otherwise the line takes a positive
        quantity or is deleted. The DELETE does not bind the quantity. */
    method UpdateCart(id: nat, qte: Option<int>) returns (resp: Response)
      requires Valid()
      modifies this
      ensures Valid() && session == old(session)
      ensures (qte.None? || !Fits(id) || (qte.value > 0 && !Fits(qte.value))) ==>
        resp == InternalError && Tables() == old(Tables())
      ensures qte.Some? && Fits(id) && (qte.value > 0 ==> Fits(qte.value)) ==>
        resp == Redirect(ToCart) && Tables() == old(Tables()).(panier := Cart.UpdateCart(old(panier), id, qte.value))
    {
      if qte.None? || !Fits(id) || (qte.value > 0 && !Fits(qte.value)) {
        return InternalError;
      }
      Cart.UpdateCartKeepsInvariant(panier, id, qte.value);
      panier := Cart.UpdateCart(panier, id, qte.value);
      resp := Redirect(ToCart);
    }

    /** finalize_order: a visitor without a session is sent to login; a
        session whose user row is gone fails unpacking it, before any write,
        and a joined line whose prix float() rejects raises inside the loop,
        so the orders already inserted are never committed. Otherwise one order per joined cart line is appended, then every
        cart row of the user is deleted, orphans included, in one commit. */
    method FinalizeOrder(phone: string) returns (resp: Response)
      requires Valid()
      modifies this
      ensures Valid() && session == old(session)
      ensures old(session).userId.None? ==> resp == Redirect(ToLogin) && Tables() == old(Tables())
      ensures old(session).userId.Some? && Find(old(users.rows), HasId(old(session).userId.value)).None? ==>
        resp == InternalError && Tables() == old(Tables())
      ensures old(session).userId.Some? && Find(old(users.rows), HasId(old(session).userId.value)).Some? &&
              !Cart.Priced(Cart.CartJoin(old(produits.rows), old(panier.rows), old(session).userId.value)) ==>
        resp == InternalError && Tables() == old(Tables())
      ensures old(session).userId.Some? && Find(old(users.rows), HasId(old(session).userId.value)).Some? &&
              Cart.Priced(Cart.CartJoin(old(produits.rows), old(panier.rows), old(session).userId.value)) ==>
        var uid := old(session).userId.value;
        var u := Find(old(users.rows), HasId(uid)).value.data;
        var lines := Cart.CartJoin(old(produits.rows), old(panier.rows), uid);
        && resp == Redirect(ToIndex)
        && Tables() == old(Tables()).(
             commandes := Table(old(commandes.rows) + Orders.Snapshot(lines, uid, u, phone, old(commandes.nextId)),
                                old(commandes.nextId) + |lines|),
             panier := Cart.ClearUserCart(old(panier), uid))
    {
      if session.userId.None? {
        return Redirect(ToLogin);
      }
      var uid := session.userId.value;
      var found := Find(users.rows, HasId(uid));
      if found.None? {
        return InternalError;
      }
      var u := found.value.data;
      var lines := Cart.CartJoin(produits.rows, panier.rows, uid);
      if !Cart.Priced(lines) {
        return InternalError;
      }
      var i := 0;
      while i < |lines|
        invariant 0 <= i <= |lines|
        invariant Sql.Valid(commandes)
        invariant commandes.rows == old(commandes.rows) + Orders.Snapshot(lines[..i], uid, u, phone, old(commandes.nextId))
        invariant commandes.nextId == old(commandes.nextId) + i
        invariant users == old(users) && produits == old(produits) && panier == old(panier)
        invariant apropos == old(apropos) && session == old(session)
      {
        Orders.SnapshotExtend(lines, uid, u, phone, old(commandes.nextId), i);
        commandes := Insert(commandes, Orders.OrderFor(uid, u, phone, lines[i]));
        i := i + 1;
      }
      assert lines[..|lines|] == lines;
      Cart.WhereKeepsInvariant(panier, Cart.NotOfUser(uid));
      panier := Cart.ClearUserCart(panier, uid);
      resp := Redirect(ToIndex);
    }

    /** delete_order: an admin deletes the order; anyone else is sent to
        login. An id past INT64_MAX raises. */
    method DeleteOrder(id: nat) returns (resp: Response)
      requires Valid()
      modifies this
      ensures Valid() && session == old(session)
      ensures !old(session).isAdmin ==> resp == Redirect(ToLogin) && Tables() == old(Tables())
      ensures old(session).isAdmin && !Fits(id) ==> resp == InternalError && Tables() == old(Tables())
      ensures old(session).isAdmin && Fits(id) ==>
        resp == Redirect(ToAdminOrders) && Tables() == old(Tables()).(commandes := Delete(old(commandes), id))
    {
      if !session.isAdmin {
        return Redirect(ToLogin);
      }
      if !Fits(id) {
        return InternalError;
      }
      commandes := Delete(commandes, id);
      resp := Redirect(ToAdminOrders);
    }

    /** admin_apropos (POST): an admin publishes an image with its text;
        anyone else is sent to login. image is the uploaded file's name. */
    method AddApropos(image: string, texte: string) returns (resp: Response)
      requires Valid()
      modifies this
      ensures Valid() && session == old(session)
      ensures !old(session).isAdmin ==> resp == Redirect(ToLogin) && Tables() == old(Tables())
      ensures old(session).isAdmin ==>
        resp == Redirect(ToAdminApropos) && Tables() == old(Tables()).(apropos := Insert(old(apropos), AproposData(image, texte)))
    {
      if !session.isAdmin {
        return Redirect(ToLogin);
      }
      apropos := Insert(apropos, AproposData(image, texte));
      resp := Redirect(ToAdminApropos);
    }

    /** delete_apropos: an admin deletes the entry; anyone else is sent to
        login. An id past INT64_MAX raises. */
    method DeleteApropos(id: nat) returns (resp: Response)
      requires Valid()
      modifies this
      ensures Valid() && session == old(session)
      ensures !old(session).isAdmin ==> resp == Redirect(ToLogin) && Tables() == old(Tables())
      ensures old(session).isAdmin && !Fits(id) ==> resp == InternalError && Tables() == old(Tables())
      ensures old(session).isAdmin && Fits(id) ==>
        resp == Redirect(ToAdminApropos) && Tables() == old(Tables()).(apropos := Delete(old(apropos), id))
    {
      if !session.isAdmin {
        return Redirect(ToLogin);
      }
      if !Fits(id) {
        return InternalError;
      }
      apropos := Delete(apropos, id);
      resp := Redirect(ToAdminApropos);
    }
  }
}
