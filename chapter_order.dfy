/** The chapter navigation of the chapter page: the manga's chapters sorted by chapter
    number (`safe_chapter_num` as the key of Python's stable `sorted`) and the position of
    the requested chapter in that order (`current_index`). */
module ChapterOrder {
  import opened Http

  /** A sort key: a chapter number, or positive infinity. */
  datatype Key = Num(x: real) | Inf

  /** The order of Python floats restricted to these keys: infinity is above every number. */
  predicate KeyLe(a: Key, b: Key)
  {
    match (a, b)
    case (_, Inf) => true
    case (Inf, Num(_)) => false
    case (Num(x), Num(y)) => x <= y
  }

  /** A chapter of the listing: its id and its `chapter` attribute (absent or null is None). */
  datatype Chapter = Chapter(id: string, number: Option<string>)

  /** `safe_chapter_num`: `float(num)`, or infinity when `num` is None (TypeError) or does not
      parse (ValueError). `parse` stands for `float` on strings, None where it raises. */
  function SafeChapterNum(ch: Chapter, parse: string -> Option<real>): (k: Key)
    ensures k.Num? <==> ch.number.Some? && parse(ch.number.value).Some?
    ensures k.Num? ==> k.x == parse(ch.number.value).value
  {
    match ch.number
    case None => Inf
    case Some(s) =>
      match parse(s)
      case None => Inf
      case Some(x) => Num(x)
  }

  function ChapterKey(parse: string -> Option<real>): Chapter -> Key
  {
    ch => SafeChapterNum(ch, parse)
  }

  predicate SortedBy<T>(s: seq<T>, key: T -> Key)
  {
    forall i, j :: 0 <= i < j < |s| ==> KeyLe(key(s[i]), key(s[j]))
  }

  /** Puts `x` before the first element whose key is not below its own. */
  function Insert<T>(x: T, s: seq<T>, key: T -> Key): seq<T>
  {
    if s == [] || KeyLe(key(x), key(s[0])) then [x] + s
    else [s[0]] + Insert(x, s[1..], key)
  }

  lemma {:induction false} InsertPermutes<T>(x: T, s: seq<T>, key: T -> Key)
    ensures multiset(Insert(x, s, key)) == multiset(s) + multiset{x}
  {
    if s != [] && !KeyLe(key(x), key(s[0])) {
      InsertPermutes(x, s[1..], key);
      assert s == [s[0]] + s[1..];
    }
  }

  lemma {:induction false} InsertSorted<T>(x: T, s: seq<T>, key: T -> Key)
    requires SortedBy(s, key)
    ensures SortedBy(Insert(x, s, key), key)
  {
    if s == [] || KeyLe(key(x), key(s[0])) {
    } else {
      var r' := Insert(x, s[1..], key);
      InsertSorted(x, s[1..], key);
      InsertPermutes(x, s[1..], key);
      forall j | 0 <= j < |r'|
        ensures KeyLe(key(s[0]), key(r'[j]))
      {
        assert r'[j] in multiset(r');
        if r'[j] != x {
          assert r'[j] in s[1..];
        }
      }
    }
  }

  /** Python's `sorted(s, key=key)`: ordered by key, ties in input order. */
  function SortByKey<T>(s: seq<T>, key: T -> Key): seq<T>
  {
    if s == [] then [] else Insert(s[0], SortByKey(s[1..], key), key)
  }

  /** The sort is a permutation of its input. */
  lemma {:induction false} SortPermutes<T>(s: seq<T>, key: T -> Key)
    ensures multiset(SortByKey(s, key)) == multiset(s)
  {
    if s != [] {
      SortPermutes(s[1..], key);
      InsertPermutes(s[0], SortByKey(s[1..], key), key);
      assert s == [s[0]] + s[1..];
    }
  }

  /** The sort orders its input by key. */
  lemma {:induction false} SortSorts<T>(s: seq<T>, key: T -> Key)
    ensures SortedBy(SortByKey(s, key), key)
  {
    if s != [] {
      SortSorts(s[1..], key);
      InsertSorted(s[0], SortByKey(s[1..], key), key);
    }
  }

  /** The elements of `s` whose key is `k`, in order. */
  function WithKey<T>(s: seq<T>, key: T -> Key, k: Key): seq<T>
  {
    if s == [] then [] else (if key(s[0]) == k then [s[0]] else []) + WithKey(s[1..], key, k)
  }

  lemma {:induction false} InsertKeepsTies<T>(x: T, s: seq<T>, key: T -> Key, k: Key)
    ensures WithKey(Insert(x, s, key), key, k) == WithKey([x] + s, key, k)
  {
    if s == [] || KeyLe(key(x), key(s[0])) {
    } else {
      InsertKeepsTies(x, s[1..], key, k);
      assert ([x] + s)[1..] == s;
      assert ([x] + s[1..])[1..] == s[1..];
      assert ([s[0]] + Insert(x, s[1..], key))[1..] == Insert(x, s[1..], key);
      assert key(x) != key(s[0]);
    }
  }

  /** The sort is stable: for every key, the chapters carrying it keep their input order. */
  lemma {:induction false} SortKeepsTies<T>(s: seq<T>, key: T -> Key, k: Key)
    ensures WithKey(SortByKey(s, key), key, k) == WithKey(s, key, k)
  {
    if s != [] {
      var rest := SortByKey(s[1..], key);
      InsertKeepsTies(s[0], rest, key, k);
      SortKeepsTies(s[1..], key, k);
      assert ([s[0]] + rest)[1..] == rest;
    }
  }

  /** `chapters_sorted`. */
  function ChaptersSorted(chapters: seq<Chapter>, parse: string -> Option<real>): (r: seq<Chapter>)
    ensures multiset(r) == multiset(chapters)
    ensures SortedBy(r, ChapterKey(parse))
  {
    SortPermutes(chapters, ChapterKey(parse));
    SortSorts(chapters, ChapterKey(parse));
    SortByKey(chapters, ChapterKey(parse))
  }

  /** The sorted list is a permutation of the input, ordered by chapter number, with every
      numbered chapter before every chapter without a usable number, and stable. */
  lemma ChaptersSortedSpec(chapters: seq<Chapter>, parse: string -> Option<real>)
    ensures var r := ChaptersSorted(chapters, parse);
            && multiset(r) == multiset(chapters)
            && (forall i, j :: 0 <= i < j < |r| ==>
                  KeyLe(SafeChapterNum(r[i], parse), SafeChapterNum(r[j], parse)))
            && (forall i, j ::
                  (0 <= i < |r| && 0 <= j < |r| &&
                   SafeChapterNum(r[i], parse).Num? && SafeChapterNum(r[j], parse).Inf?) ==> i < j)
            && (forall k :: WithKey(r, ChapterKey(parse), k) == WithKey(chapters, ChapterKey(parse), k))
  {
    var r := ChaptersSorted(chapters, parse);
    forall k
      ensures WithKey(r, ChapterKey(parse), k) == WithKey(chapters, ChapterKey(parse), k)
    {
      SortKeepsTies(chapters, ChapterKey(parse), k);
    }
  }

  /** A numbered element followed by two infinite ones is already sorted. */
  lemma SortedTail<T>(a: T, b: T, c: T, key: T -> Key)
    requires key(a).Num? && key(b) == Inf && key(c) == Inf
    ensures SortByKey([a, b, c], key) == [a, b, c]
  {
    assert [a, b, c][1..] == [b, c] && [b, c][1..] == [c] && [c][1..] == [];
    assert SortByKey([c], key) == [c];
    assert SortByKey([b, c], key) == Insert(b, [c], key) == [b, c];
    assert SortByKey([a, b, c], key) == Insert(a, [b, c], key) == [a, b, c];
  }

  /** The chapters "3", "1", "abc" and "" come out as 1, 3, "abc", "": the numbered ones
      by number, the other two last and in their input order. */
  lemma MixedChapterNumbers(parse: string -> Option<real>)
    requires parse("3") == Some(3.0) && parse("1") == Some(1.0)
    requires parse("abc") == None && parse("") == None
    ensures ChaptersSorted([Chapter("a", Some("3")), Chapter("b", Some("1")),
                            Chapter("c", Some("abc")), Chapter("d", Some(""))], parse)
            == [Chapter("b", Some("1")), Chapter("a", Some("3")),
                Chapter("c", Some("abc")), Chapter("d", Some(""))]
  {
    var c3, c1, cx, ce := Chapter("a", Some("3")), Chapter("b", Some("1")),
                          Chapter("c", Some("abc")), Chapter("d", Some(""));
    var key := ChapterKey(parse);
    SortedTail(c1, cx, ce, key);
    assert [c3, c1, cx, ce][1..] == [c1, cx, ce];
    assert SortByKey([c3, c1, cx, ce], key) == Insert(c3, [c1, cx, ce], key) == [c1, c3, cx, ce];
  }

  /** The first position holding `chapterId`, if any. */
  function Find(s: seq<Chapter>, chapterId: string): (r: Option<nat>)
    ensures r.Some? ==> r.value < |s| && s[r.value].id == chapterId &&
                        forall j :: 0 <= j < r.value ==> s[j].id != chapterId
    ensures r.None? ==> forall j :: 0 <= j < |s| ==> s[j].id != chapterId
  {
    if s == [] then None
    else if s[0].id == chapterId then Some(0)
    else
      match Find(s[1..], chapterId)
      case None => None
      case Some(i) => Some(i + 1)
  }

  /** `current_index`: the least position holding the requested chapter, 0 if none does. */
  function CurrentIndex(s: seq<Chapter>, chapterId: string): (r: nat)
    ensures (exists i :: 0 <= i < |s| && s[i].id == chapterId) ==>
              r < |s| && s[r].id == chapterId && forall j :: 0 <= j < r ==> s[j].id != chapterId
    ensures (forall i :: 0 <= i < |s| ==> s[i].id != chapterId) ==> r == 0
  {
    match Find(s, chapterId)
    case Some(i) => i
    case None => 0
  }
}
