# BIBLIOTHEQUE_FLASK storefront, modelled in Dafny

`app.py` is a small Flask shop over SQLite. Under its request handlers sits a
sequential state machine over five tables and a session record:

- `users`: accounts, with a UNIQUE email and an `is_admin` flag;
- `produits`: the catalogue;
- `panier`: the cart, one row per (user, product), with a quantity;
- `commandes`: orders, each a denormalised snapshot of one cart line;
- `apropos`: the "about" page entries.

This project models that state machine and proves what each handler does
to the tables.

- `Sql` (sql.dfy) models a table as its rows in rowid order plus its
  AUTOINCREMENT counter. It gives the statement shapes the handlers use:
  INSERT, SELECT/DELETE ... WHERE, UPDATE ... WHERE id = ?, and
  `fetchone()`, which returns the first matching row.
- `Schema` (schema.dfy) holds the column records of the five tables, the
  session, and the handlers' answers (a redirect, a rendered page, or an
  uncaught exception).
- `Cart` (cart.dfy) covers the `panier` table:
  - add_to_cart's read-modify-write;
  - update_cart and the count of load_cart_count;
  - the inner join of view_cart and its total.
- `Orders` (orders.dfy) covers the rows finalize_order writes and the
  admin_orders listing.
- `Auth` (auth.dfy) covers the UNIQUE email rule, create_superadmin and
  login's credential check.
- `Catalog` (catalog.dfy) covers edit_produit's UPDATE and the categorie
  and recherche filters.
- `Shop` (shop.dfy) is the class `App`. It has one field per table and one
  for the session, and one method per handler that writes to them. Each
  method states the whole new state in terms of the old one and keeps the
  invariant `Valid()`:
  - ids are increasing and below the counter;
  - emails are unique;
  - at most one cart line exists per (user, product);
  - every cart quantity is positive.
- `Scenario` (scenario.dfy) follows one session through the handlers'
  contracts: the admin stocks two products, a user registers (the duplicate
  registration is refused), fills a cart worth 15.00 and checks out. It
  ends with two orders of 5.00 and 10.00 and an empty cart.

Foreign calls are parameters:

- `hashed` is what `generate_password_hash` returned;
- `check` stands for `check_password_hash`;
- `file` is the name `secure_filename` produced, or none when no file came;
- an `Option` form value is `None` when `int()` or `float()` would raise;
- a product's `prix` is `None` when `float()` would raise on the stored cell.

sqlite3 binds a Python int only within the signed 64-bit range, so
`Schema.Fits` and `INT64_MAX` mark where a route id, a quantity or an
incremented quantity makes a statement raise OverflowError before it runs.

## Model

| member | source | states |
|---|---|---|
| Sql.Create | app.py:19-20 | A new table has no rows and is valid |
| Sql.Insert | app.py:19-20 | An INSERT keeps the table valid, keeps every earlier row, and appends one row under the next AUTOINCREMENT id |
| Sql.Where | app.py:222 | A WHERE filter keeps exactly the rows that satisfy it, in rowid order, so ids stay increasing |
| Sql.Find | app.py:296-297 | fetchone() finds nothing exactly when no row matches; otherwise it returns a matching row of the table |
| Sql.FindFirst | app.py:296-297 | fetchone() returns the first matching row in rowid order |
| Sql.FindInWhere | app.py:183 | Deleting rows that a query never selects does not change what fetchone() returns for it |
| Sql.WhereAppend | app.py:316 | A WHERE over a table with one more row is the old result plus that row when it matches |
| Sql.Update | app.py:300 | UPDATE ... WHERE id rewrites the columns of exactly the rows with that id, keeps their ids and keeps ids increasing and below the counter |
| Sql.Delete | app.py:183 | DELETE ... WHERE id removes exactly the rows with that id, keeps the counter, and keeps the table valid |
| Cart.AddToCart | app.py:296-303 | add_to_cart's read-modify-write, stated by the four lemmas below |
| Cart.AddOverflows | app.py:300 | The UPDATE binds the old quantity plus one; Cart.AddOverflowsIff says when that is past INT64_MAX |
| Cart.AddOverflowsIff | app.py:296-300 | The increment overflows exactly when the pair has a line whose quantity is already INT64_MAX or more |
| Cart.AddToCartIncrements | app.py:296-301 | When the user already has a line for the product, that line's quantity goes up by one and no other row or the counter changes |
| Cart.AddToCartInserts | app.py:302-303 | When the user has no line for the product, exactly one line with quantity 1 is appended under the next id |
| Cart.AddToCartKeepsInvariant | app.py:296-303 | add_to_cart keeps at most one line per (user, product) and every quantity positive |
| Cart.AddRepeatedlyFresh | app.py:296-303 | Adding a product n times from no line leaves exactly one line for the pair, with quantity n |
| Cart.CountAfterAddToCart | app.py:296-321 | add_to_cart raises the user's cart count by one exactly when it inserts, and no other user's count changes |
| Cart.UpdateCart | app.py:405-411 | A positive quantity rewrites that line's quantity and nothing else; a quantity of zero or less deletes exactly the line with that id |
| Cart.UpdateCartKeepsInvariant | app.py:405-411 | update_cart keeps every quantity positive and at most one line per (user, product) |
| Cart.UpdateKeepsCount | app.py:409 | Changing a line's quantity does not change any user's cart count |
| Cart.WhereKeepsInvariant | app.py:396 | Any DELETE ... WHERE on the cart keeps its invariant |
| Cart.CountLines | app.py:316 | SELECT COUNT(*) FROM panier WHERE user_id: the number of the user's rows, stated by the count lemmas |
| Cart.ClearUserCart | app.py:520 | DELETE FROM panier WHERE user_id removes exactly that user's rows, orphans included |
| Cart.CountAfterClear | app.py:520 | After the user's cart is cleared, their count is zero and every other user's count is unchanged |
| Cart.CartJoin | app.py:355-360 | The inner join of the user's cart rows with produits, stated by Cart.JoinMembership and Cart.JoinAtMostCount |
| Cart.CartTotal | app.py:363 | The sum of float(prix) * quantite over the lines; Cart.CartTotalIsLiveValue relates it to the cart rows |
| Cart.PricedJoinIff | app.py:363 | Every joined line has a prix float() accepts exactly when every cart row of the user that joins a product joins one with such a prix |
| Cart.CartTotalIsLiveValue | app.py:355-363 | The joined total equals the sum of price times quantity over the user's cart rows whose product still exists |
| Cart.JoinMembership | app.py:355-360 | A line is in the join exactly when some cart row of the user, whose product exists, yields it |
| Cart.JoinAtMostCount | app.py:355-360 | The join has at most as many lines as the user's cart count, and exactly as many when no line is orphaned |
| Cart.JoinAfterProduitDeleted | app.py:183 | Deleting a product makes the join behave as if that product's cart lines were gone, though they stay in the table |
| Cart.JoinAfterClear | app.py:520 | After the user's cart is cleared, their join is empty and every other user's join is unchanged |
| Cart.ViewCart | app.py:348-366 | A visitor without a session is sent to login; a joined line whose prix float() rejects, and only that, makes the page fail; otherwise the page lists the joined lines, the total is the live value of the cart, and an empty cart shows no lines and 0 |
| Orders.OrderFor | app.py:510-517 | The order row for one joined line, stated by Orders.SnapshotAt |
| Orders.Snapshot | app.py:509-517 | The rows the loop inserts: one per joined line |
| Orders.SnapshotAt | app.py:509-517 | Each order row carries the buyer's nom, prenom, email and adresse, the phone, the product name, the quantity and total = prix * quantite, under consecutive ids |
| Orders.SnapshotTotal | app.py:509-517 | The totals of the orders written for a cart add up to the cart's total |
| Orders.SnapshotExtend | app.py:509-517 | Each loop step appends exactly one order row |
| Orders.CheckoutOutcome | app.py:495-521 | One order per joined line, at most the cart count; the order totals equal the live value of the cart; afterwards the user has no cart rows, the cart view is empty and a second checkout writes no order |
| Orders.NewestFirst | app.py:535 | ORDER BY id DESC lists the rows in reverse |
| Orders.NewestFirstDescending | app.py:535 | On a table whose ids increase, the listing's ids strictly decrease |
| Orders.AdminOrders | app.py:527-538 | Without the admin flag the visitor is sent to login; an admin sees every order, most recent first |
| Auth.InsertNewEmailKeepsUnique | app.py:96-97 | Inserting an email no row has keeps emails unique |
| Auth.SuperAdmin | app.py:72-73 | The superadmin's columns, stated by Auth.SeedAdmin |
| Auth.SeedAdmin | app.py:66-75 | After create_superadmin the admin email is registered; the table is unchanged when it already was, and otherwise gains exactly the superadmin row; email uniqueness is kept |
| Auth.SeedAdminIdempotent | app.py:66-75 | Running create_superadmin a second time, with any hash, changes nothing |
| Auth.Authenticate | app.py:115-118 | A successful login returns a row of the table with the submitted email whose hash the password checks against |
| Auth.AuthenticateIff | app.py:115-118 | With unique emails, login succeeds exactly when some account has the email and a hash the password checks against |
| Catalog.EditProduit | app.py:203-207 | edit_produit's UPDATE, stated by Catalog.EditProduitEffect |
| Catalog.EditProduitEffect | app.py:193-210 | The row with the id gets the new nom, categorie, prix and description, keeps its image unless a file came, and no other row changes; an unknown id changes nothing |
| Catalog.Categorie | app.py:218-225 | The listing holds exactly the products of that category |
| Catalog.ContainsIff | app.py:236-237 | The substring test agrees with "the query occurs at some index" |
| Catalog.OccursAtShift | app.py:236-237 | An occurrence in the tail of a string is an occurrence one index later in the string |
| Catalog.Recherche | app.py:228-240 | A missing or empty query sends the visitor to the index; otherwise the listing holds exactly the products whose name or description contains the query |
| Shop.App.constructor | app.py:15-281 | A new database has the four empty valid tables of init_db (lines 15-61), the empty valid panier of init_panier (lines 262-281), and an empty session |
| Shop.App.CreateSuperadmin | app.py:66-75 | The users table becomes SeedAdmin of the old one; nothing else changes |
| Shop.App.CreateUser | app.py:81-104 | Mismatched passwords, or an email already registered, insert nothing and go back to the form; otherwise exactly one non-admin user is inserted and the visitor is sent to login |
| Shop.App.Login | app.py:109-126 | On a successful check the session gets the user's id, admin flag and email; otherwise it is unchanged; no table changes |
| Shop.App.Logout | app.py:130-134 | The session is cleared; no table changes |
| Shop.App.AddProduit | app.py:148-169 | An admin inserts exactly one product, whose prix may be text float() rejects; anyone else is sent to login and nothing changes |
| Shop.App.DeleteProduit | app.py:179-186 | The product row goes, with no admin check; cart lines and orders are untouched; an id past INT64_MAX raises and nothing changes |
| Shop.App.EditProduit | app.py:189-210 | A price float() rejects, or an id past INT64_MAX, changes nothing; otherwise produits becomes the edited table, with no admin check |
| Shop.App.AddToCart | app.py:287-307 | Without a session the visitor is sent to login; a product id or an increment past INT64_MAX raises and nothing changes; otherwise the cart becomes AddToCart of the old one and the invariant holds |
| Shop.App.LoadCartCount | app.py:311-321 | cart_count becomes the number of the user's cart rows, orphans included, or 0 without a user |
| Shop.App.DeleteCart | app.py:392-400 | Exactly the line with that id goes, with no ownership check; an id past INT64_MAX raises and nothing changes |
| Shop.App.UpdateCart | app.py:403-415 | A quantity int() rejects, an id past INT64_MAX, or a positive quantity past it, changes nothing; otherwise the cart becomes UpdateCart of the old one |
| Shop.App.FinalizeOrder | app.py:482-525 | Without a session, login; with a missing user row, or a joined line whose prix float() rejects, an error with no write; otherwise the orders table gains the snapshot of the joined cart under consecutive ids, and the user's cart rows are deleted |
| Shop.App.DeleteOrder | app.py:543-556 | An admin deletes exactly that order, or fails with no change on an id past INT64_MAX; anyone else is sent to login and nothing changes |
| Shop.App.AddApropos | app.py:559-577 | An admin inserts exactly one entry; anyone else is sent to login and nothing changes |
| Shop.App.DeleteApropos | app.py:597-609 | An admin deletes exactly that entry, or fails with no change on an id past INT64_MAX; anyone else is sent to login and nothing changes |

## Left out

- Flask plumbing is not modelled: templates, `flash` messages and `url_for`. A handler's answer is the endpoint it redirects to, the content of the page it renders, or an uncaught exception.
- The GET views are not modelled: index, the admin listing, edit_produit's form, produit_detail, checkout's form, and the apropos listings. They write nothing, but some have answers of their own that the model leaves out: produit_detail answers 404 for an unknown id (app.py:251-252), its POST raises when `int()` rejects the quantity (app.py:255), and checkout's form raises TypeError when the session's user row is gone (app.py:456-464).
- SQLite mechanics are not modelled: connections, SQL text, and the PRAGMA/ALTER TABLE migration of init_panier. The model starts from a fresh database.
- Password hashing and file uploads are parameters: `hashed`, `check` and the saved file name. The files are not written.
- Prices and totals are Dafny `real`, so float rounding is not modelled.
- Shop.App.AddProduit takes `prix` as what `float()` would later make of the stored cell, not as the text itself. The model does not keep the text.
- Catalog.Recherche uses a plain substring test. SQLite LIKE folds ASCII case and treats `%` and `_` in the query as wildcards; the model does neither.
- The join in view_cart and finalize_order has no ORDER BY. The model lists lines in cart-row order, and a line joins the first product with its id, which is the only one because ids are unique.
- A missing form field raises KeyError, which Flask answers with HTTP 400. The model does not include this; every field is a parameter.
- Shop.App.Logout leaves cart_count at 0 rather than removing it. load_cart_count sets it to 0 before the next request either way.
- Concurrency is not modelled, including the race of two add_to_cart calls on one pair. The handlers are sequential.
- The commented-out view_cart and checkout are not modelled. The before_request hook registered twice with one body is modelled once.
- `Valid()` does not tie the session's user to a row of users. finalize_order's missing-user path is modelled as an error with no write.
- config.py is not part of this model.
- delete_produit (app.py:183) does not cascade to panier. The orphaned rows stay: the join drops them, while load_cart_count and finalize_order's DELETE still see them (Cart.JoinAfterProduitDeleted, Shop.App.DeleteProduit).
- Session user ids are taken to fit in 64 bits, because they come from users.id. No table reaches the 2^63 AUTOINCREMENT limit.
- Cart.AddToCart, Cart.UpdateCart: these state the successful write; the 64-bit overflow paths are checked by Shop.App.AddToCart and Shop.App.UpdateCart before they are called.
