/**
  The two `getPaginationParams` of the API. Both read the "page" and "limit" query
  parameters with `parseInt(…, 10)`, default an absent or empty parameter ("1", "20") and
  clamp; they differ on a parameter that is not a number or is zero. JavaScript's NaN is
  None here: `Math.max` and `Math.min` return NaN when an argument is NaN.
*/
module Pagination {
  import opened Wrappers
  import opened Strings
  import opened JsNumbers

  /** `param || fallback`: an absent or empty query parameter takes the fallback text. */
  function OrText(param: Option<string>, fallback: string): string {
    if param.None? || param.value == "" then fallback else param.value
  }

  /** The number a page parameter reads as, "1" when it is absent or empty; None is NaN. */
  function PageNumber(pageParam: Option<string>): Option<int> {
    ParseInt(OrText(pageParam, "1"))
  }

  /** The number a limit parameter reads as, "20" when it is absent or empty; None is NaN. */
  function LimitNumber(limitParam: Option<string>): Option<int> {
    ParseInt(OrText(limitParam, "20"))
  }

  /** The defaults read as the numbers 1 and 20. */
  lemma DefaultNumbers(pageParam: Option<string>, limitParam: Option<string>)
    ensures pageParam.None? ==> PageNumber(pageParam) == Some(1)
    ensures limitParam.None? ==> LimitNumber(limitParam) == Some(20)
  {
    ParseDefaults();
    if pageParam.None? {
      assert OrText(pageParam, "1") == "1";
    }
    if limitParam.None? {
      assert OrText(limitParam, "20") == "20";
    }
  }

  lemma ParseDefaults()
    ensures ParseInt("1") == Some(1) && ParseInt("20") == Some(20)
  {
    ParseOne();
    ParseTwenty();
  }

  lemma ParseOne()
    ensures ParseInt("1") == Some(1)
  {
    DigitsOne();
    ParseIntOfDigits("1");
  }

  lemma DigitsOne()
    ensures AllDigits("1") && DigitsValue("1") == 1
  {
    assert "1"[..0] == "";
  }

  lemma ParseTwenty()
    ensures ParseInt("20") == Some(20)
  {
    DigitsTwenty();
    ParseIntOfDigits("20");
  }

  lemma DigitsTwenty()
    ensures AllDigits("20") && DigitsValue("20") == 20
  {
    assert "20"[..1] == "2";
    assert "2"[..0] == "";
  }

  function Max(a: int, b: int): int {
    if a >= b then a else b
  }

  function Min(a: int, b: int): int {
    if a <= b then a else b
  }

  /** Page, limit and offset as JavaScript numbers; None is NaN. */
  datatype NumericPage = NumericPage(page: Option<int>, limit: Option<int>, offset: Option<int>)

  /** The library's clamps on the numbers read: `Math.max` and `Math.min` pass NaN through. */
  function LibClamp(p: Option<int>, l: Option<int>): NumericPage {
    var page := if p.None? then None else Some(Max(1, p.value));
    var limit := if l.None? then None else Some(Min(100, Max(1, l.value)));
    var offset := if page.None? || limit.None? then None else Some((page.value - 1) * limit.value);
    NumericPage(page, limit, offset)
  }

  /** `getPaginationParams` of the shared library: no fallback for a value that is not a number. */
  function LibPaginationParams(pageParam: Option<string>, limitParam: Option<string>): NumericPage {
    LibClamp(PageNumber(pageParam), LimitNumber(limitParam))
  }

  lemma {:induction false} MultipleOf(k: nat, limit: int)
    requires limit >= 1
    ensures k * limit >= 0
    decreases k
  {
    if k > 0 {
      MultipleOf(k - 1, limit);
      assert k * limit == (k - 1) * limit + limit;
    }
  }

  /**
    The library clamps: a number is clamped to page >= 1 and 1 <= limit <= 100 (a zero limit
    becomes 1); NaN stays NaN and reaches the offset; the offset is (page - 1) * limit, a
    non-negative multiple of the limit.
  */
  lemma LibClampSpec(p: Option<int>, l: Option<int>)
    ensures var r := LibClamp(p, l);
      && (r.page.None? <==> p.None?)
      && (r.limit.None? <==> l.None?)
      && (r.page.Some? ==> r.page.value >= 1 && (p.value >= 1 ==> r.page.value == p.value))
      && (r.limit.Some? ==> 1 <= r.limit.value <= 100 && (1 <= l.value <= 100 ==> r.limit.value == l.value))
      && (r.offset.Some? <==> r.page.Some? && r.limit.Some?)
      && (r.offset.Some? ==> r.offset.value >= 0 && r.offset.value == (r.page.value - 1) * r.limit.value)
  {
    var r := LibClamp(p, l);
    if r.offset.Some? {
      MultipleOf(r.page.value - 1, r.limit.value);
    }
  }

  /**
    The library version: absent parameters give page 1 and limit 20 (offset 0); the rest is
    the clamping of the numbers read.
  */
  lemma LibPaginationSpec(pageParam: Option<string>, limitParam: Option<string>)
    ensures var r := LibPaginationParams(pageParam, limitParam);
      && (pageParam.None? ==> r.page == Some(1))
      && (limitParam.None? ==> r.limit == Some(20))
      && (pageParam.None? && limitParam.None? ==> r == NumericPage(Some(1), Some(20), Some(0)))
      && (r.page.None? <==> PageNumber(pageParam).None?)
      && (r.limit.None? <==> LimitNumber(limitParam).None?)
  {
    DefaultNumbers(pageParam, limitParam);
  }

  datatype PageParams = PageParams(page: int, limit: int, offset: int)

  /** The helpers' clamps: NaN and zero (both falsy) fall back to the default first. */
  function HelperClamp(p: Option<int>, l: Option<int>): PageParams {
    var page := Max(1, if p.None? || p.value == 0 then 1 else p.value);
    var limit := Max(1, Min(100, if l.None? || l.value == 0 then 20 else l.value));
    PageParams(page, limit, (page - 1) * limit)
  }

  /** `getPaginationParams` of the handlers' helpers. */
  function HelperPaginationParams(pageParam: Option<string>, limitParam: Option<string>): PageParams {
    HelperClamp(PageNumber(pageParam), LimitNumber(limitParam))
  }

  /**
    The helper clamps: the page is at least 1 and the limit between 1 and 100 whatever was
    read; a page that is not a number or is zero gives 1; a limit that is not a number or is
    zero falls back to 20, a negative one becomes 1 and one above 100 becomes 100; the offset
    is (page - 1) * limit, a non-negative multiple of the limit.
  */
  lemma HelperClampSpec(p: Option<int>, l: Option<int>)
    ensures var r := HelperClamp(p, l);
      && r.page >= 1 && 1 <= r.limit <= 100
      && r.offset == (r.page - 1) * r.limit && r.offset >= 0
      && (p.None? || p == Some(0) ==> r.page == 1)
      && (p.Some? && p.value >= 1 ==> r.page == p.value)
      && (l.None? || l == Some(0) ==> r.limit == 20)
      && (l.Some? && l.value < 0 ==> r.limit == 1)
      && (l.Some? && l.value > 100 ==> r.limit == 100)
      && (l.Some? && 1 <= l.value <= 100 ==> r.limit == l.value)
  {
    var r := HelperClamp(p, l);
    MultipleOf(r.page - 1, r.limit);
  }

  /** The helper version: both parameters absent give page 1, limit 20, offset 0. */
  lemma HelperPaginationDefaults(pageParam: Option<string>, limitParam: Option<string>)
    ensures pageParam.None? && limitParam.None? ==> HelperPaginationParams(pageParam, limitParam) == PageParams(1, 20, 0)
    ensures pageParam.None? ==> HelperPaginationParams(pageParam, limitParam).page == 1
  {
    DefaultNumbers(pageParam, limitParam);
    HelperClampOfDefaults(PageNumber(pageParam), LimitNumber(limitParam));
  }

  lemma HelperClampOfDefaults(p: Option<int>, l: Option<int>)
    ensures p == Some(1) ==> HelperClamp(p, l).page == 1
    ensures p == Some(1) && l == Some(20) ==> HelperClamp(p, l) == PageParams(1, 20, 0)
  {
  }

  /**
    The two versions against each other: they give the same page exactly when the page
    parameter reads as a number, and the same limit exactly when the limit parameter reads
    as a number other than zero (zero gives 1 in the library, 20 in the helpers).
  */
  lemma PaginationVersionsAgree(p: Option<int>, l: Option<int>)
    ensures var lib := LibClamp(p, l);
      var helper := HelperClamp(p, l);
      && (lib.page == Some(helper.page) <==> p.Some?)
      && (lib.limit == Some(helper.limit) <==> l.Some? && l.value != 0)
      && (l == Some(0) ==> lib.limit == Some(1) && helper.limit == 20)
  {
  }
}
