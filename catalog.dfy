/** The produits table: the admin insert, edit_produit's UPDATE, and the
    categorie and recherche listings. */
module Catalog {
  import opened Sql
  import opened Schema

  type ProduitRows = seq<Row<ProduitData>>

  /** The columns edit_produit writes: nom, categorie, prix (as float()
      returned it) and description always, image only when a file was uploaded. */
  function Edit(nom: string, categorie: string, prix: real, description: string, file: Option<string>): ProduitData -> ProduitData {
    (p: ProduitData) => ProduitData(nom, categorie, Some(prix), description, if file.Some? then file.value else p.image)
  }

  /** edit_produit's UPDATE produits ... WHERE id = ?. */
  function EditProduit(t: Table<ProduitData>, id: nat, nom: string, categorie: string, prix: real,
                       description: string, file: Option<string>): Table<ProduitData>
  {
    Table(Update(t.rows, id, Edit(nom, categorie, prix, description, file)), t.nextId)
  }

  /** The row with that id gets the new nom, categorie, prix and description
      and keeps its image unless a file was given; no other row changes, and
      an id no row has changes nothing. */
  lemma EditProduitEffect(t: Table<ProduitData>, id: nat, nom: string, categorie: string, prix: real,
                          description: string, file: Option<string>)
    ensures var r := EditProduit(t, id, nom, categorie, prix, description, file);
      && r.nextId == t.nextId
      && |r.rows| == |t.rows|
      && (forall i :: 0 <= i < |t.rows| && t.rows[i].id != id ==> r.rows[i] == t.rows[i])
      && (forall i :: 0 <= i < |t.rows| && t.rows[i].id == id ==>
            r.rows[i].id == id &&
            r.rows[i].data == ProduitData(nom, categorie, Some(prix), description,
                                          if file.Some? then file.value else t.rows[i].data.image))
      && ((forall i :: 0 <= i < |t.rows| ==> t.rows[i].id != id) ==> r == t)
  {
    var r := EditProduit(t, id, nom, categorie, prix, description, file);
    if forall i :: 0 <= i < |t.rows| ==> t.rows[i].id != id {
      assert r.rows == t.rows;
    }
  }

  function InCategorie(c: string): Row<ProduitData> -> bool {
    (x: Row<ProduitData>) => x.data.categorie == c
  }

  /** categorie: SELECT * FROM produits WHERE categorie = ?. */
  function Categorie(rows: ProduitRows, c: string): (r: ProduitRows)
    ensures forall x :: x in r <==> x in rows && x.data.categorie == c
    ensures IdsIncreasing(rows) ==> IdsIncreasing(r)
  {
    Where(rows, InCategorie(c))
  }

  /** q occurs in s as a contiguous substring. */
  predicate Contains(s: string, q: string) {
    q <= s || (s != [] && Contains(s[1..], q))
  }

  /** q occurs in s starting at index i. */
  predicate OccursAt(s: string, q: string, i: int) {
    0 <= i && i + |q| <= |s| && s[i..i + |q|] == q
  }

  lemma OccursAtStart(s: string, q: string)
    ensures OccursAt(s, q, 0) <==> q <= s
  {
  }

  lemma OccursAtShift(s: string, q: string, i: int)
    requires s != [] && i >= 0
    ensures OccursAt(s[1..], q, i) <==> OccursAt(s, q, i + 1)
  {
    if 0 <= i && i + |q| <= |s[1..]| {
      assert s[1..][i..i + |q|] == s[i + 1..i + 1 + |q|];
    }
  }

  /** Contains agrees with the direct definition of a substring. */
  lemma {:induction false} ContainsIff(s: string, q: string)
    ensures Contains(s, q) <==> exists i :: OccursAt(s, q, i)
  {
    OccursAtStart(s, q);
    if s != [] && !(q <= s) {
      ContainsIff(s[1..], q);
      if Contains(s[1..], q) {
        var i :| OccursAt(s[1..], q, i);
        OccursAtShift(s, q, i);
      }
      if exists i :: OccursAt(s, q, i) {
        var i :| OccursAt(s, q, i);
        OccursAtShift(s, q, i - 1);
      }
    }
  }

  function Matches(q: string): Row<ProduitData> -> bool {
    (x: Row<ProduitData>) => Contains(x.data.nom, q) || Contains(x.data.description, q)
  }

  /** recherche: with no query, or an empty one, the visitor is sent to the
      index; otherwise the products whose name or description contains the
      query are listed. */
  function Recherche(rows: ProduitRows, q: Option<string>): (r: View<ProduitRows>)
    ensures (q.None? || q.value == "") <==> r == RedirectTo(ToIndex)
    ensures q.Some? && q.value != "" ==>
      && r.Render?
      && forall x :: x in r.content <==> x in rows && (Contains(x.data.nom, q.value) || Contains(x.data.description, q.value))
  {
    if q.None? || q.value == "" then RedirectTo(ToIndex)
    else Render(Where(rows, Matches(q.value)))
  }
}
