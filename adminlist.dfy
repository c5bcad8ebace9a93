/** The /listadmin reply: the administrators shown ten to a page, each line
    numbered from 1 across pages, with previous/next buttons when there is
    more than one page. */
module AdminList {
  import opened Common

  datatype Admin = Admin(id: Id, pseudo: string)

  /** The page size the command passes. */
  const PageSize := 10

  /** `Math.ceil(n / size)` */
  function PageCount(n: nat, size: nat): (r: nat)
    requires size > 0
    ensures n == 0 <==> r == 0
    ensures n > 0 ==> (r - 1) * size < n <= r * size
  {
    (n + size - 1) / size
  }

  /** One description line: its number and the admin it shows. */
  datatype Line = Line(number: int, pseudo: string, id: Id)

  /** `admins.slice(start, start + size)` numbered `start + i + 1`, with
      `start = page * size`. This is the definition; what a reader relies on
      is proved in `AdminOnItsPage` and `PagesInRange`. */
  function PageLines(admins: seq<Admin>, page: nat, size: nat): (r: seq<Line>)
    ensures var start := page * size;
      && |r| == (if start >= |admins| then 0 else if start + size <= |admins| then size else |admins| - start)
      && forall i :: 0 <= i < |r| ==>
           r[i] == Line(start + i + 1, admins[start + i].pseudo, admins[start + i].id)
  {
    var start := page * size;
    var stop := if start + size <= |admins| then start + size else |admins|;
    if start >= |admins| then []
    else seq(stop - start, i requires 0 <= i < stop - start =>
               Line(start + i + 1, admins[start + i].pseudo, admins[start + i].id))
  }

  /** The footer: "Page <page + 1>/<pages> · <n> admin(s)". */
  datatype Footer = Footer(page: int, pages: int, count: int)

  function FooterOf(admins: seq<Admin>, page: nat, size: nat): Footer
    requires size > 0
  {
    Footer(page + 1, PageCount(|admins|, size), |admins|)
  }

  /** `buildListNav(page, total)`: the targets are `page - 1` and `page + 1`;
      previous is disabled on the first page, next from the last one on. */
  datatype Nav = Nav(prevTarget: int, prevDisabled: bool, nextTarget: int, nextDisabled: bool)

  function NavFor(page: int, total: int): Nav {
    Nav(page - 1, page == 0, page + 1, page >= total - 1)
  }

  /** The command's reply. */
  datatype ListReply =
    | NoAdmins
    | FirstPage(lines: seq<Line>, footer: Footer, nav: Option<Nav>)

  function ListAdmins(admins: seq<Admin>): ListReply {
    if admins == [] then NoAdmins
    else
      var pages := PageCount(|admins|, PageSize);
      FirstPage(PageLines(admins, 0, PageSize), FooterOf(admins, 0, PageSize),
                if pages > 1 then Some(NavFor(0, pages)) else None)
  }

  /** Every admin is on exactly one page: the admin at position k is line
      k mod size of page k div size, numbered k + 1, and that page exists. */
  lemma AdminOnItsPage(admins: seq<Admin>, size: nat, k: nat)
    requires size > 0 && k < |admins|
    ensures k / size < PageCount(|admins|, size)
    ensures var lines := PageLines(admins, k / size, size);
      k % size < |lines| && lines[k % size] == Line(k + 1, admins[k].pseudo, admins[k].id)
  {
    var p, q := k / size, k % size;
    assert p * size + q == k;
    var pages := PageCount(|admins|, size);
    if p >= pages {
      assert p * size >= pages * size by {
        MulMono(pages, p, size);
      }
    }
  }

  lemma MulMono(a: nat, b: nat, c: nat)
    requires a <= b
    ensures a * c <= b * c
  {
  }

  /** A page number below the page count shows a non-empty page; from the
      page count on, pages are empty. */
  lemma PagesInRange(admins: seq<Admin>, size: nat, page: nat)
    requires size > 0
    ensures PageLines(admins, page, size) != [] <==> page < PageCount(|admins|, size)
  {
    var pages := PageCount(|admins|, size);
    if page < pages {
      assert page * size <= (pages - 1) * size by {
        MulMono(page, pages - 1, size);
      }
    } else if |admins| > 0 {
      assert pages * size <= page * size by {
        MulMono(pages, page, size);
      }
    }
  }

  /** On a page that exists, an enabled button points at a page that
      exists too; the first reply offers "next" exactly when there is a
      second page. */
  lemma NavStaysInRange(page: int, total: int)
    requires 0 <= page < total
    ensures !NavFor(page, total).prevDisabled ==> 0 <= NavFor(page, total).prevTarget < total
    ensures !NavFor(page, total).nextDisabled ==> 0 <= NavFor(page, total).nextTarget < total
    ensures NavFor(page, total).prevDisabled <==> page == 0
    ensures NavFor(page, total).nextDisabled <==> page == total - 1
  {
  }

  /** No admins: the text reply. Otherwise the first ten, numbered 1 to at
      most 10, and buttons only from eleven admins on. */
  lemma ListAdminsShape(admins: seq<Admin>)
    ensures admins == [] <==> ListAdmins(admins).NoAdmins?
    ensures ListAdmins(admins).FirstPage? ==>
      var reply := ListAdmins(admins);
      && |reply.lines| == (if |admins| < PageSize then |admins| else PageSize)
      && (forall i :: 0 <= i < |reply.lines| ==> reply.lines[i].number == i + 1)
      && (reply.nav.Some? <==> |admins| > PageSize)
      && (reply.nav.Some? ==> reply.nav.value.prevDisabled && !reply.nav.value.nextDisabled)
  {
  }
}
