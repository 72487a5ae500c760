/** The commissioner's news list: posting prepends a trimmed, unarchived item
    (blank posts are ignored), archiving flags the items with one id, and
    clearing the archive (once confirmed) deletes the archived items. The
    page shows the unarchived items and counts the rest. */
module News {
  import opened Base

  datatype NewsItem = NewsItem(id: int, content: string, date: int, isArchived: bool)

  /** The characters `String.prototype.trim` removes: the ECMAScript
      WhiteSpace and LineTerminator code points. */
  predicate IsSpace(c: char)
  {
    || ('\U{9}' <= c <= '\U{D}')          // tab, line feed, vertical tab, form feed, carriage return
    || c == ' ' || c == '\U{A0}' || c == '\U{1680}'
    || ('\U{2000}' <= c <= '\U{200A}')    // the en quad .. hair space block
    || c == '\U{2028}' || c == '\U{2029}' // line and paragraph separators
    || c == '\U{202F}' || c == '\U{205F}' || c == '\U{3000}' || c == '\U{FEFF}'
  }

  /** The number of leading whitespace characters. */
  function LeadingSpace(s: string): (n: nat)
    ensures n <= |s|
    ensures forall i :: 0 <= i < n ==> IsSpace(s[i])
    ensures n < |s| ==> !IsSpace(s[n])
  {
    if s == [] || !IsSpace(s[0]) then 0 else 1 + LeadingSpace(s[1..])
  }

  /** The number of trailing whitespace characters. */
  function TrailingSpace(s: string): (n: nat)
    ensures n <= |s|
    ensures forall i :: |s| - n <= i < |s| ==> IsSpace(s[i])
    ensures n < |s| ==> !IsSpace(s[|s| - n - 1])
  {
    if s == [] || !IsSpace(s[|s| - 1]) then 0 else 1 + TrailingSpace(s[..|s| - 1])
  }

  /** `s.trim()` */
  function Trim(s: string): string
  {
    var t := s[LeadingSpace(s)..];
    t[..|t| - TrailingSpace(t)]
  }

  /** Trimming keeps a contiguous part of the text, drops only whitespace
      around it, and leaves no whitespace at either end. */
  lemma TrimShape(s: string)
    ensures var r := Trim(s);
      exists i, j :: 0 <= i <= j <= |s| && r == s[i..j]
        && (forall k :: 0 <= k < i ==> IsSpace(s[k]))
        && (forall k :: j <= k < |s| ==> IsSpace(s[k]))
    ensures Trim(s) != [] ==> !IsSpace(Trim(s)[0]) && !IsSpace(Trim(s)[|Trim(s)| - 1])
  {
    var i := LeadingSpace(s);
    var t := s[i..];
    var j := i + |t| - TrailingSpace(t);
    assert Trim(s) == s[i..j];
    forall k | j <= k < |s| ensures IsSpace(s[k]) {
      assert s[k] == t[k - i];
    }
  }

  /** The text is blank exactly when it is whitespace only. */
  lemma BlankIffAllSpace(s: string)
    ensures Trim(s) == [] <==> forall k :: 0 <= k < |s| ==> IsSpace(s[k])
  {
    var i := LeadingSpace(s);
    var t := s[i..];
    if Trim(s) == [] {
      assert |t| == TrailingSpace(t);
      assert i == |s| by {
        if i < |s| {
          assert false;
        }
      }
    } else {
      assert i < |s| && !IsSpace(s[i]);
    }
  }

  /** Trimming twice is trimming once. */
  lemma TrimIdempotent(s: string)
    ensures Trim(Trim(s)) == Trim(s)
  {
    var r := Trim(s);
    TrimShape(s);
    if r != [] {
      assert LeadingSpace(r) == 0;
      assert TrailingSpace(r) == 0;
      assert r[0..] == r;
      assert r[..|r|] == r;
    }
  }

  /** The list and the text box, the state the handlers change. */
  datatype Board = Board(items: seq<NewsItem>, draft: string)

  /** `handleAddNews` at time `now`: a blank draft changes nothing; otherwise
      the trimmed draft is prepended as an unarchived item whose id and date
      are `now`, and the box is emptied. */
  function AddNews(b: Board, now: int): (r: Board)
    ensures Trim(b.draft) == [] ==> r == b
    ensures Trim(b.draft) != [] ==>
      && r.items == [NewsItem(now, Trim(b.draft), now, false)] + b.items
      && r.draft == []
  {
    if Trim(b.draft) == [] then b
    else Board([NewsItem(now, Trim(b.draft), now, false)] + b.items, [])
  }

  /** `handleArchive(id)` */
  function Archive(items: seq<NewsItem>, id: int): (r: seq<NewsItem>)
    ensures |r| == |items|
    ensures forall i :: 0 <= i < |items| ==> r[i] == if items[i].id == id then items[i].(isArchived := true) else items[i]
  {
    seq(|items|, i requires 0 <= i < |items| => if items[i].id == id then items[i].(isArchived := true) else items[i])
  }

  predicate Unarchived(item: NewsItem)
  {
    !item.isArchived
  }

  /** `handleClearArchive`: only when the deletion is confirmed. */
  function ClearArchive(items: seq<NewsItem>, confirmed: bool): seq<NewsItem>
  {
    if confirmed then Filter(items, Unarchived) else items
  }

  /** `visibleNews` */
  function Visible(items: seq<NewsItem>): seq<NewsItem>
  {
    Filter(items, Unarchived)
  }

  /** `archivedCount` */
  function ArchivedCount(items: seq<NewsItem>): int
  {
    |items| - |Visible(items)|
  }

  predicate Archived(item: NewsItem)
  {
    item.isArchived
  }

  /** Posting a non-blank draft adds one visible item at the top. */
  lemma AddNewsShowsItem(b: Board, now: int)
    requires Trim(b.draft) != []
    ensures var r := AddNews(b, now);
      && Visible(r.items) == [NewsItem(now, Trim(b.draft), now, false)] + Visible(b.items)
      && ArchivedCount(r.items) == ArchivedCount(b.items)
  {
    var item := NewsItem(now, Trim(b.draft), now, false);
    FilterConcat([item], b.items, Unarchived);
  }

  /** Archiving keeps the length and the order, changes only the flag of the
      items with that id, and is idempotent. */
  lemma ArchiveOnlyFlags(items: seq<NewsItem>, id: int)
    ensures var r := Archive(items, id);
      && (forall i :: 0 <= i < |r| ==> r[i].id == items[i].id && r[i].content == items[i].content && r[i].date == items[i].date)
      && (forall i :: 0 <= i < |r| ==> r[i].isArchived == (items[i].isArchived || items[i].id == id))
      && Archive(r, id) == r
  {
  }

  /** The archived items are counted, the others shown: the two add up to the list. */
  lemma {:induction false} VisiblePlusArchived(items: seq<NewsItem>)
    ensures ArchivedCount(items) == |Filter(items, Archived)|
    ensures 0 <= ArchivedCount(items) <= |items|
  {
    if items != [] {
      VisiblePlusArchived(items[1..]);
    }
  }

  /** Clearing the archive keeps exactly the unarchived items, in their order:
      clearing a list made of two parts clears each part. */
  lemma ClearArchiveKeepsVisible(items: seq<NewsItem>, more: seq<NewsItem>)
    ensures var r := ClearArchive(items, true);
      && r == Visible(items)
      && |r| == |items| - ArchivedCount(items)
      && (forall x :: x in r ==> !x.isArchived && x in items)
      && (forall x :: x in items && !x.isArchived ==> x in r)
      && ClearArchive(items + more, true) == r + ClearArchive(more, true)
  {
    FilterConcat(items, more, Unarchived);
    forall x | x in items && !x.isArchived ensures x in ClearArchive(items, true) {
      var k :| 0 <= k < |items| && items[k] == x;
    }
  }

  /** An unconfirmed clear changes nothing. */
  lemma ClearArchiveNeedsConfirmation(items: seq<NewsItem>)
    ensures ClearArchive(items, false) == items
  {
  }

  /** Archiving an id and then clearing the archive removes every item with that id. */
  lemma ArchiveThenClear(items: seq<NewsItem>, id: int)
    ensures forall x :: x in ClearArchive(Archive(items, id), true) ==> x.id != id
  {
  }
}
