/** The page-control component's cursor over the pages of a document. */
module PageControl {

  class PageControlState {
    var pageNum: int
    var numPages: int

    /** The cursor is on a page of the document (page 1 while it has none). */
    predicate InRange()
      reads this
    {
      1 <= pageNum && (pageNum <= numPages || pageNum == 1)
    }

    /** `state`: page 1 of a document of 0 pages. */
    constructor ()
      ensures pageNum == 1 && numPages == 0
      ensures InRange()
    {
      pageNum := 1;
      numPages := 0;
    }

    /** `next`: on one page unless the last page is reached. */
    method Next()
      modifies this
      ensures old(numPages) <= old(pageNum) ==> pageNum == old(pageNum)
      ensures old(numPages) > old(pageNum) ==> pageNum == old(pageNum) + 1
      ensures numPages == old(numPages)
      ensures old(InRange()) ==> InRange()
    {
      if numPages <= pageNum {
        return;
      }
      pageNum := pageNum + 1;
    }

    /** `prev`: back one page unless on the first. */
    method Prev()
      modifies this
      ensures old(pageNum) <= 1 ==> pageNum == old(pageNum)
      ensures old(pageNum) > 1 ==> pageNum == old(pageNum) - 1
      ensures numPages == old(numPages)
      ensures old(InRange()) ==> InRange()
    {
      if pageNum <= 1 {
        return;
      }
      pageNum := pageNum - 1;
    }
  }
}
