/** The cache key scheme of the posts and comments routes.

    Keys are Python f-strings over integers, so the decimal rendering of an
    `int` is modelled exactly (a leading '-' for negatives, no leading zeros);
    the lemmas here show that each key family is injective and that no two
    families share a key. */
module CacheKeys {

  /** Default query arguments of the post listing. */
  const DefaultPage: int := 1
  const DefaultPerPage: int := 10

  /** The one list key that post writes invalidate. */
  const FirstPageKey: string := "posts:page:1:per_page:10"

  function DigitChar(d: nat): char
    requires d < 10
  {
    "0123456789"[d]
  }

  function DigitValue(c: char): nat
  {
    if '0' <= c <= '9' then (c as int - '0' as int) as nat else 0
  }

  predicate IsDigit(c: char) {
    '0' <= c <= '9'
  }

  /** A character that may occur in the decimal rendering of an integer. */
  predicate IsNumeral(c: char) {
    c == '-' || IsDigit(c)
  }

  predicate ColonFree(s: string) {
    forall k :: 0 <= k < |s| ==> s[k] != ':'
  }

  /** Decimal rendering of a natural number, most significant digit first. */
  function NatToDecimal(n: nat): (s: string)
    ensures |s| >= 1 && (|s| == 1 <==> n < 10)
    ensures forall k :: 0 <= k < |s| ==> IsDigit(s[k])
    decreases n
  {
    if n < 10 then [DigitChar(n)] else NatToDecimal(n / 10) + [DigitChar(n % 10)]
  }

  /** Python's `str(i)` / `f'{i}'` for an integer. */
  function IntToDecimal(i: int): (s: string)
    ensures |s| >= 1 && ColonFree(s)
    ensures forall k :: 0 <= k < |s| ==> IsNumeral(s[k])
    ensures s[0] == '-' <==> i < 0
  {
    if i < 0 then "-" + NatToDecimal(-i) else NatToDecimal(i)
  }

  /** Reads back a string of digits; the inverse of `NatToDecimal`. */
  function ParseNat(s: string): nat
    decreases |s|
  {
    if |s| == 0 then 0
    else ParseNat(s[..|s| - 1]) * 10 + DigitValue(s[|s| - 1])
  }

  /** Reads back an optional '-' and digits; the inverse of `IntToDecimal`. */
  function ParseInt(s: string): int
  {
    if |s| > 0 && s[0] == '-' then 0 - ParseNat(s[1..]) else ParseNat(s)
  }

  lemma DigitRoundTrip(d: nat)
    requires d < 10
    ensures DigitValue(DigitChar(d)) == d
  {
  }

  lemma {:induction false} NatRoundTrip(n: nat)
    ensures ParseNat(NatToDecimal(n)) == n
    decreases n
  {
    var s := NatToDecimal(n);
    if n < 10 {
      DigitRoundTrip(n);
      assert s[..0] == [];
    } else {
      NatRoundTrip(n / 10);
      DigitRoundTrip(n % 10);
      assert s[..|s| - 1] == NatToDecimal(n / 10);
    }
  }

  /** Rendering an integer and reading it back gives the integer. */
  lemma IntRoundTrip(i: int)
    ensures ParseInt(IntToDecimal(i)) == i
  {
    if i < 0 {
      NatRoundTrip(-i);
      assert IntToDecimal(i)[1..] == NatToDecimal(-i);
    } else {
      NatRoundTrip(i);
    }
  }

  /** Different integers render differently. */
  lemma IntToDecimalInjective(i: int, j: int)
    requires IntToDecimal(i) == IntToDecimal(j)
    ensures i == j
  {
    IntRoundTrip(i);
    IntRoundTrip(j);
  }

  /** Key of one page of the published-post listing: `posts:page:{page}:per_page:{per_page}`. */
  function PostsPageKey(page: int, perPage: int): string
  {
    "posts:page:" + IntToDecimal(page) + ":per_page:" + IntToDecimal(perPage)
  }

  /** Key of a single post: `post:{id}`. */
  function PostKey(id: int): string
  {
    "post:" + IntToDecimal(id)
  }

  /** Key of the comment list of a post: `post:{post_id}:comments`. */
  function CommentsKey(postId: int): string
  {
    "post:" + IntToDecimal(postId) + ":comments"
  }

  /** A listing-page key starts `posts:page:`; the page number is the text up
      to the next ':', the page size everything after `:per_page:`, and both
      read back as the request's numbers. */
  lemma PostsPageKeyReadsBack(page: int, perPage: int)
    ensures var k := PostsPageKey(page, perPage);
      var i := 11 + FirstColon(k[11..]);
      |k| > 11 && i + 10 < |k| && k[..11] == "posts:page:" && k[i..i + 10] == ":per_page:"
      && ParseInt(k[11..i]) == page && ParseInt(k[i + 10..]) == perPage
  {
    var p, q := IntToDecimal(page), IntToDecimal(perPage);
    IntRoundTrip(page);
    IntRoundTrip(perPage);
    FirstColonOfHead(p, ":per_page:" + q);
    var k := PostsPageKey(page, perPage);
    assert k == "posts:page:" + (p + (":per_page:" + q));
    assert k[11..] == p + (":per_page:" + q);
    assert k[11..11 + |p|] == p;
    assert k[11 + |p|..11 + |p| + 10] == ":per_page:";
    assert k[11 + |p| + 10..] == q;
  }

  /** A post key is `post:` followed by the text of the id, which reads back. */
  lemma PostKeyReadsBack(id: int)
    ensures var k := PostKey(id);
      |k| > 5 && k[..5] == "post:" && ColonFree(k[5..]) && ParseInt(k[5..]) == id
  {
    IntRoundTrip(id);
    assert PostKey(id)[5..] == IntToDecimal(id);
  }

  /** A comment-list key is `post:`, the text of the post id, which reads
      back, and `:comments`. */
  lemma CommentsKeyReadsBack(postId: int)
    ensures var k := CommentsKey(postId);
      |k| > 14 && k[..5] == "post:" && k[|k| - 9..] == ":comments"
      && ColonFree(k[5..|k| - 9]) && ParseInt(k[5..|k| - 9]) == postId
  {
    IntRoundTrip(postId);
    var k := CommentsKey(postId);
    assert k[5..|k| - 9] == IntToDecimal(postId);
  }

  /** The key that create/update/delete of a post invalidates is the key of the
      default listing request (page 1, 10 per page). */
  lemma FirstPageIsDefaultPage()
    ensures PostsPageKey(DefaultPage, DefaultPerPage) == FirstPageKey
  {
  }

  /** Position of the first ':' in `s`, or `|s|` when there is none. */
  function FirstColon(s: string): (i: nat)
    ensures i <= |s|
  {
    if |s| == 0 then 0 else if s[0] == ':' then 0 else 1 + FirstColon(s[1..])
  }

  lemma {:induction false} FirstColonOfHead(a: string, b: string)
    requires ColonFree(a)
    requires |b| == 0 || b[0] == ':'
    ensures FirstColon(a + b) == |a|
    decreases |a|
  {
    if |a| > 0 {
      assert (a + b)[1..] == a[1..] + b;
      FirstColonOfHead(a[1..], b);
    } else {
      assert a + b == b;
    }
  }

  /** The first-page key is the key of no other listing request and of no
      post or comment list: invalidating it leaves every other page cached. */
  lemma FirstPageKeyIsOnlyDefaultPage(page: int, perPage: int, id: int)
    ensures PostsPageKey(page, perPage) == FirstPageKey <==> (page == DefaultPage && perPage == DefaultPerPage)
    ensures PostKey(id) != FirstPageKey && CommentsKey(id) != FirstPageKey
  {
    FirstPageIsDefaultPage();
    PostsPageKeyInjective(page, perPage, DefaultPage, DefaultPerPage);
    KeyFamiliesDisjoint(id, id, DefaultPage, DefaultPerPage);
  }

  /** Two colon-free heads followed by tails that start with ':' can only be
      equal concatenations when heads and tails agree: keys split uniquely at
      their first ':'. */
  lemma SplitAtColon(a: string, b: string, c: string, d: string)
    requires ColonFree(a) && ColonFree(c)
    requires |b| > 0 && b[0] == ':' && |d| > 0 && d[0] == ':'
    requires a + b == c + d
    ensures a == c && b == d
  {
    FirstColonOfHead(a, b);
    FirstColonOfHead(c, d);
    assert a == (a + b)[..|a|];
    assert c == (c + d)[..|c|];
    assert b == (a + b)[|a|..];
    assert d == (c + d)[|c|..];
  }

  lemma StripPrefix(prefix: string, x: string, y: string)
    requires prefix + x == prefix + y
    ensures x == y
  {
    assert x == (prefix + x)[|prefix|..];
    assert y == (prefix + y)[|prefix|..];
  }

  /** Equal listing requests give equal keys, different ones different keys. */
  lemma PostsPageKeyInjective(page: int, perPage: int, page': int, perPage': int)
    ensures PostsPageKey(page, perPage) == PostsPageKey(page', perPage') <==> (page == page' && perPage == perPage')
  {
    if PostsPageKey(page, perPage) == PostsPageKey(page', perPage') {
      PageKeyParts(page, perPage);
      PageKeyParts(page', perPage');
      var p, q := IntToDecimal(page), IntToDecimal(perPage);
      var p', q' := IntToDecimal(page'), IntToDecimal(perPage');
      StripPrefix("posts:page:", p + (":per_page:" + q), p' + (":per_page:" + q'));
      SplitAtColon(p, ":per_page:" + q, p', ":per_page:" + q');
      StripPrefix(":per_page:", q, q');
      IntToDecimalInjective(page, page');
      IntToDecimalInjective(perPage, perPage');
    }
  }

  lemma PageKeyParts(page: int, perPage: int)
    ensures PostsPageKey(page, perPage)
         == "posts:page:" + (IntToDecimal(page) + (":per_page:" + IntToDecimal(perPage)))
  {
  }

  /** `post:{id}` is distinct per post id. */
  lemma PostKeyInjective(id: int, id': int)
    ensures PostKey(id) == PostKey(id') <==> id == id'
  {
    if PostKey(id) == PostKey(id') {
      assert IntToDecimal(id) == PostKey(id)[5..];
      assert IntToDecimal(id') == PostKey(id')[5..];
      IntToDecimalInjective(id, id');
    }
  }

  /** `post:{post_id}:comments` is distinct per post id. */
  lemma CommentsKeyInjective(postId: int, postId': int)
    ensures CommentsKey(postId) == CommentsKey(postId') <==> postId == postId'
  {
    if CommentsKey(postId) == CommentsKey(postId') {
      var s, s' := IntToDecimal(postId), IntToDecimal(postId');
      assert CommentsKey(postId) == "post:" + (s + ":comments");
      assert CommentsKey(postId') == "post:" + (s' + ":comments");
      assert s + ":comments" == CommentsKey(postId)[5..];
      assert s' + ":comments" == CommentsKey(postId')[5..];
      SplitAtColon(s, ":comments", s', ":comments");
      IntToDecimalInjective(postId, postId');
    }
  }

  /** No key of one family is a key of another: an entry cached for a post, a
      comment list and a listing page never overwrite each other. */
  lemma KeyFamiliesDisjoint(id: int, postId: int, page: int, perPage: int)
    ensures PostKey(id) != CommentsKey(postId)
    ensures PostKey(id) != PostsPageKey(page, perPage)
    ensures CommentsKey(postId) != PostsPageKey(page, perPage)
  {
    var s, t := IntToDecimal(id), IntToDecimal(postId);
    assert PostKey(id)[5..] == s;
    assert CommentsKey(postId)[5..] == t + ":comments";
    FirstColonOfHead(s, "");
    assert s + "" == s;
    FirstColonOfHead(t, ":comments");
    assert PostKey(id)[4] == ':';
    assert PostsPageKey(page, perPage)[4] == 's';
    assert CommentsKey(postId)[4] == ':';
  }
}
