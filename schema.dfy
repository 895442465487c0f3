/** The columns of the five tables created by init_db and init_panier, the
    session record, and what a handler answers with. */
module Schema {
  import opened Sql

  /** users: email is UNIQUE, password holds the hash, is_admin defaults to 0. */
  datatype UserData = UserData(
    nom: string, prenom: string, email: string, adresse: string,
    password: string, isAdmin: bool)

  /** produits: prix is a REAL column, but the admin form inserts the
      submitted text as it is, and SQLite keeps text that is not a number as
      TEXT. A cell is Some(x) when float() of it returns x, and None when
      float() raises on it (text such as "2,50" or ""). */
  datatype ProduitData = ProduitData(
    nom: string, categorie: string, prix: Option<real>, description: string, image: string)

  /** panier: one cart line, with quantite defaulting to 1. */
  datatype CartItem = CartItem(userId: nat, produitId: nat, quantite: int)

  /** commandes: a snapshot of buyer and product taken when the order was placed. */
  datatype CommandeData = CommandeData(
    userId: nat, nom: string, prenom: string, email: string, adresse: string,
    phone: string, produit: string, quantite: int, total: real)

  /** apropos: an image name and a text. */
  datatype AproposData = AproposData(image: string, texte: string)

  /** The session cookie's entries; a missing 'is_admin' reads as false. */
  datatype Session = Session(userId: Option<nat>, isAdmin: bool, email: Option<string>, cartCount: nat)

  const EMPTY_SESSION := Session(None, false, None, 0)

  /** The endpoints handlers redirect to. */
  datatype Endpoint = ToIndex | ToLogin | ToCreateUser | ToAdmin | ToProduit(id: nat) | ToCart | ToAdminOrders | ToAdminApropos

  /** What a state-changing handler answers: a redirect, or an uncaught
      exception (HTTP 500) raised before anything was committed. */
  datatype Response = Redirect(to: Endpoint) | InternalError

  /** What a read-only handler answers: a redirect, a rendered page, or an
      uncaught exception (HTTP 500). */
  datatype View<T> = RedirectTo(to: Endpoint) | Render(content: T) | ServerError

  /** The largest value sqlite3 binds to an INTEGER parameter. Binding a
      Python int outside [-INT64_MAX - 1, INT64_MAX] raises OverflowError
      before the statement runs. */
  const INT64_MAX: int := 0x7FFF_FFFF_FFFF_FFFF

  predicate Fits(n: int) {
    -INT64_MAX - 1 <= n <= INT64_MAX
  }
}
