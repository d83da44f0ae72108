/** The comment thread (src/components/CommentsSection.tsx): which comments
    are shown, how a flat list becomes a reply tree, how visible comments are
    counted, the avatar initials and the guards before a new comment is sent. */
module Comments {
  import opened Wrappers
  import opened Text
  import opened KeyedMap

  // ----- The reply tree as rendered -----

  /** A comment with its nested replies (an absent `replies` is the empty list,
      an absent `deleted` is false). */
  datatype Comment = Comment(id: string, deleted: bool, replies: seq<Comment>)

  /** `hasVisibleReplies`: some reply is not deleted or itself has a visible reply. */
  predicate HasVisibleReplies(c: Comment)
    decreases c
  {
    exists i | 0 <= i < |c.replies| :: !c.replies[i].deleted || HasVisibleReplies(c.replies[i])
  }

  /** Every comment of the subtree rooted at `c`, in pre-order. */
  function Nodes(c: Comment): (r: seq<Comment>)
    ensures |r| > 0 && r[0] == c
    decreases c, 1
  {
    [c] + NodesOf(c.replies)
  }

  /** Every comment of a forest, in pre-order. */
  function NodesOf(cs: seq<Comment>): seq<Comment>
    decreases cs, 0
  {
    if cs == [] then [] else Nodes(cs[0]) + NodesOf(cs[1..])
  }

  /** Some comment of the list is not deleted. */
  predicate SomeNotDeleted(cs: seq<Comment>) {
    exists i | 0 <= i < |cs| :: !cs[i].deleted
  }

  lemma SomeNotDeletedAppend(a: seq<Comment>, b: seq<Comment>)
    ensures SomeNotDeleted(a + b) <==> SomeNotDeleted(a) || SomeNotDeleted(b)
  {
    if SomeNotDeleted(a + b) {
      var i :| 0 <= i < |a + b| && !(a + b)[i].deleted;
      if i >= |a| {
        assert !b[i - |a|].deleted;
      }
    }
    if SomeNotDeleted(a) {
      var i :| 0 <= i < |a| && !a[i].deleted;
      assert (a + b)[i] == a[i];
    }
    if SomeNotDeleted(b) {
      var i :| 0 <= i < |b| && !b[i].deleted;
      assert (a + b)[|a| + i] == b[i];
    }
  }

  /** A comment has visible replies exactly when some comment below it, at
      any depth, is not deleted. */
  lemma HasVisibleRepliesIff(c: Comment)
    ensures HasVisibleReplies(c) <==> SomeNotDeleted(NodesOf(c.replies))
    decreases c, 1
  {
    AnyVisibleIff(c.replies);
  }

  /** The forest version: some tree has a live root or a visible reply
      exactly when some comment of the forest is not deleted. */
  lemma {:induction false} AnyVisibleIff(cs: seq<Comment>)
    ensures (exists i | 0 <= i < |cs| :: !cs[i].deleted || HasVisibleReplies(cs[i])) <==> SomeNotDeleted(NodesOf(cs))
    decreases cs, 0
  {
    if cs != [] {
      var c := cs[0];
      HasVisibleRepliesIff(c);
      AnyVisibleIff(cs[1..]);
      SomeNotDeletedAppend(Nodes(c), NodesOf(cs[1..]));
      SomeNotDeletedAppend([c], NodesOf(c.replies));
      if exists i | 0 <= i < |cs[1..]| :: !cs[1..][i].deleted || HasVisibleReplies(cs[1..][i]) {
        var i :| 0 <= i < |cs[1..]| && (!cs[1..][i].deleted || HasVisibleReplies(cs[1..][i]));
        assert cs[i + 1] == cs[1..][i];
      }
      if exists i | 0 <= i < |cs| :: !cs[i].deleted || HasVisibleReplies(cs[i]) {
        var i :| 0 <= i < |cs| && (!cs[i].deleted || HasVisibleReplies(cs[i]));
        if i > 0 {
          assert cs[1..][i - 1] == cs[i];
        }
      }
    }
  }

  /** A comment that is not deleted or has visible replies is shown. */
  predicate Visible(c: Comment) {
    !c.deleted || HasVisibleReplies(c)
  }

  /** `CommentItem` renders nothing exactly for a deleted comment without
      visible replies, that is, when its whole subtree is deleted. */
  lemma HiddenIffSubtreeDeleted(c: Comment)
    ensures !Visible(c) <==> !SomeNotDeleted(Nodes(c))
  {
    HasVisibleRepliesIff(c);
    SomeNotDeletedAppend([c], NodesOf(c.replies));
  }

  /** The number of visible comments in a list of comments. */
  function VisibleCount(cs: seq<Comment>): (n: nat)
    ensures n <= |cs|
  {
    if cs == [] then 0 else VisibleCount(cs[..|cs| - 1]) + (if Visible(cs[|cs| - 1]) then 1 else 0)
  }

  lemma {:induction false} VisibleCountAppend(a: seq<Comment>, b: seq<Comment>)
    ensures VisibleCount(a + b) == VisibleCount(a) + VisibleCount(b)
    decreases |b|
  {
    if b != [] {
      assert (a + b)[..|a + b| - 1] == a + b[..|b| - 1];
      VisibleCountAppend(a, b[..|b| - 1]);
    } else {
      assert a + b == a;
    }
  }

  lemma {:induction false} NodesOfAppend(a: seq<Comment>, c: Comment)
    ensures NodesOf(a + [c]) == NodesOf(a) + Nodes(c)
  {
    if a == [] {
      assert [c][1..] == [];
      assert NodesOf([c]) == Nodes(c) + NodesOf([]);
    } else {
      assert (a + [c])[1..] == a[1..] + [c];
      NodesOfAppend(a[1..], c);
    }
  }

  /** `countVisibleComments`: walk the list, count each visible comment, and
      add the count of its replies. */
  method CountVisibleComments(cs: seq<Comment>) returns (count: nat)
    ensures count == VisibleCount(NodesOf(cs))
    decreases cs
  {
    count := 0;
    for i := 0 to |cs|
      invariant count == VisibleCount(NodesOf(cs[..i]))
    {
      var c := cs[i];
      assert cs[..i + 1] == cs[..i] + [c];
      NodesOfAppend(cs[..i], c);
      VisibleCountAppend(NodesOf(cs[..i]), Nodes(c));
      VisibleCountAppend([c], NodesOf(c.replies));
      assert VisibleCount([c]) == if Visible(c) then 1 else 0;
      if Visible(c) {
        count := count + 1;
      }
      if |c.replies| > 0 {
        var below := CountVisibleComments(c.replies);
        count := count + below;
      }
    }
    assert cs[..|cs|] == cs;
  }

  /** A list of comments none of which is deleted counts in full. */
  lemma {:induction false} NothingDeletedCountsAll(cs: seq<Comment>)
    requires forall i :: 0 <= i < |cs| ==> !cs[i].deleted
    ensures VisibleCount(cs) == |cs|
  {
    if cs != [] {
      NothingDeletedCountsAll(cs[..|cs| - 1]);
    }
  }

  /** A list of comments all of which are hidden counts nothing. */
  lemma {:induction false} AllHiddenCountsNothing(cs: seq<Comment>)
    requires forall i :: 0 <= i < |cs| ==> !Visible(cs[i])
    ensures VisibleCount(cs) == 0
  {
    if cs != [] {
      AllHiddenCountsNothing(cs[..|cs| - 1]);
    }
  }

  // ----- Nesting a flat list -----

  /** A comment as the list endpoint returns it, before nesting. */
  datatype FlatComment = FlatComment(id: string, deleted: bool, parentId: Option<string>)

  function CommentId(c: FlatComment): string { c.id }

  /** The comment goes under a parent: its `parentId` is truthy (a non-empty
      string) and names a comment of the list. */
  predicate Attaches(c: FlatComment, ids: set<string>) {
    c.parentId.Some? && c.parentId.value != "" && c.parentId.value in ids
  }

  /** The elements of `xs` that satisfy `p`, in order. */
  function Filter<T(!new)>(xs: seq<T>, p: T -> bool): (r: seq<T>)
    ensures |r| <= |xs|
    ensures forall x :: x in r <==> x in xs && p(x)
  {
    if xs == [] then []
    else
      var r := Filter(xs[..|xs| - 1], p);
      assert xs == xs[..|xs| - 1] + [xs[|xs| - 1]];
      if p(xs[|xs| - 1]) then r + [xs[|xs| - 1]] else r
  }

  /** Filtering keeps the order: two kept elements appear in the output in the
      order of their positions in the input. */
  lemma {:induction false} FilterKeepsOrder<T(!new)>(xs: seq<T>, p: T -> bool, a: nat, b: nat)
    requires a < b < |xs| && p(xs[a]) && p(xs[b])
    ensures exists i, j :: 0 <= i < j < |Filter(xs, p)| && Filter(xs, p)[i] == xs[a] && Filter(xs, p)[j] == xs[b]
  {
    var init := xs[..|xs| - 1];
    var r := Filter(init, p);
    if b == |xs| - 1 {
      assert xs[a] == init[a];
      assert xs[a] in r;
      var i :| 0 <= i < |r| && r[i] == xs[a];
      assert Filter(xs, p) == r + [xs[b]];
      assert Filter(xs, p)[i] == xs[a] && Filter(xs, p)[|r|] == xs[b];
    } else {
      assert xs[a] == init[a] && xs[b] == init[b];
      FilterKeepsOrder(init, p, a, b);
      var i, j :| 0 <= i < j < |r| && r[i] == xs[a] && r[j] == xs[b];
      assert Filter(xs, p)[..|r|] == r;
      assert Filter(xs, p)[i] == r[i] && Filter(xs, p)[j] == r[j];
    }
  }

  /** The ids of the list. */
  function IdSet(comments: seq<FlatComment>): set<string> {
    set i | 0 <= i < |comments| :: comments[i].id
  }

  /** `Object.values(map)`: one entry per id, at the position of its first
      occurrence, holding its last occurrence. */
  function Entries(comments: seq<FlatComment>): seq<FlatComment> {
    MapValues(comments, CommentId)
  }

  /** The roots: the entries that do not attach to a parent. */
  function RootsOf(entries: seq<FlatComment>, ids: set<string>): seq<FlatComment> {
    Filter(entries, IsRoot(ids))
  }

  function IsRoot(ids: set<string>): FlatComment -> bool {
    c => !Attaches(c, ids)
  }

  function IsReplyTo(ids: set<string>, parent: string): FlatComment -> bool {
    c => Attaches(c, ids) && c.parentId.value == parent
  }

  /** The replies of `parent`: the entries attaching to it. */
  function RepliesOf(entries: seq<FlatComment>, ids: set<string>, parent: string): seq<FlatComment> {
    Filter(entries, IsReplyTo(ids, parent))
  }

  /** Filtering a list extended by one element. */
  lemma FilterSnoc<T(!new)>(xs: seq<T>, x: T, p: T -> bool)
    ensures Filter(xs + [x], p) == if p(x) then Filter(xs, p) + [x] else Filter(xs, p)
  {
    assert (xs + [x])[..|xs|] == xs;
  }

  lemma IdSetSnoc(comments: seq<FlatComment>, i: nat)
    requires i < |comments|
    ensures IdSet(comments[..i + 1]) == IdSet(comments[..i]) + {comments[i].id}
  {
    assert forall j :: 0 <= j < i ==> comments[..i + 1][j] == comments[..i][j];
  }

  /** One step of the walk: the next entry goes onto its parent's replies when
      it attaches, and onto the roots otherwise. */
  lemma NestStep(done: seq<FlatComment>, ids: set<string>, roots: seq<FlatComment>,
                 replies: map<string, seq<FlatComment>>, c: FlatComment)
    requires Nested(done, ids, roots, replies)
    ensures Attaches(c, ids) ==>
      Nested(done + [c], ids, roots, replies[c.parentId.value := replies[c.parentId.value] + [c]])
    ensures !Attaches(c, ids) ==> Nested(done + [c], ids, roots + [c], replies)
  {
    FilterSnoc(done, c, IsRoot(ids));
    forall p | p in replies
      ensures RepliesOf(done + [c], ids, p) ==
        if Attaches(c, ids) && c.parentId.value == p then replies[p] + [c] else replies[p]
    {
      FilterSnoc(done, c, IsReplyTo(ids, p));
    }
  }

  /** The first pass of `nestComments`: one entry per id, each with an empty
      reply list. */
  method IndexById(comments: seq<FlatComment>)
    returns (entries: seq<FlatComment>, replies: map<string, seq<FlatComment>>)
    ensures entries == Entries(comments)
    ensures replies.Keys == IdSet(comments)
    ensures forall p :: p in replies ==> replies[p] == []
  {
    entries := [];
    replies := map[];
    for i := 0 to |comments|
      invariant entries == MapValues(comments[..i], CommentId)
      invariant replies.Keys == IdSet(comments[..i])
      invariant forall p :: p in replies ==> replies[p] == []
    {
      assert comments[..i + 1][..i] == comments[..i];
      IdSetSnoc(comments, i);
      entries := Set(entries, comments[i], CommentId);
      replies := replies[comments[i].id := []];
    }
    assert comments[..|comments|] == comments;
  }

  /** `nestComments`: index the comments by id, then walk the index and push
      each comment onto its parent's replies, or onto the roots. The nested
      objects are shared, so the tree is the map from an id to its replies. */
  method NestComments(comments: seq<FlatComment>)
    returns (roots: seq<FlatComment>, replies: map<string, seq<FlatComment>>)
    ensures roots == RootsOf(Entries(comments), IdSet(comments))
    ensures replies.Keys == IdSet(comments)
    ensures forall p :: p in replies ==> replies[p] == RepliesOf(Entries(comments), IdSet(comments), p)
  {
    var entries;
    entries, replies := IndexById(comments);
    ghost var ids := replies.Keys;
    roots := [];
    assert Nested(entries[..0], ids, roots, replies);
    for k := 0 to |entries|
      invariant Nested(entries[..k], ids, roots, replies)
    {
      var c := entries[k];
      assert entries[..k + 1] == entries[..k] + [c];
      NestStep(entries[..k], ids, roots, replies, c);
      if c.parentId.Some? && c.parentId.value != "" && c.parentId.value in replies {
        replies := replies[c.parentId.value := replies[c.parentId.value] + [c]];
      } else {
        roots := roots + [c];
      }
    }
    assert entries[..|entries|] == entries;
  }

  /** Each id of the list is placed exactly once: under the parent it names
      when it attaches, and among the roots otherwise. */
  lemma PlacedOnce(comments: seq<FlatComment>, c: FlatComment)
    requires c in Entries(comments)
    ensures var ids := IdSet(comments);
      (Attaches(c, ids) ==> c in RepliesOf(Entries(comments), ids, c.parentId.value) && c !in RootsOf(Entries(comments), ids)) &&
      (!Attaches(c, ids) ==> c in RootsOf(Entries(comments), ids)) &&
      (forall p :: c in RepliesOf(Entries(comments), ids, p) ==> Attaches(c, ids) && p == c.parentId.value)
  {
  }

  /** The entries carry each id of the list once, in order of first occurrence. */
  lemma EntriesDistinct(comments: seq<FlatComment>)
    ensures Keys(Entries(comments), CommentId) == Dedup(Keys(comments, CommentId))
    ensures Distinct(Keys(Entries(comments), CommentId))
    ensures forall id :: id in IdSet(comments) <==> id in Keys(Entries(comments), CommentId)
  {
    MapValuesKeys(comments, CommentId);
    DedupDistinct(Keys(comments, CommentId));
    DedupMembers(Keys(comments, CommentId));
    forall id | id in IdSet(comments)
      ensures id in Keys(comments, CommentId)
    {
      var i :| 0 <= i < |comments| && comments[i].id == id;
      assert Keys(comments, CommentId)[i] == id;
    }
  }

  /** Walking up the parents from `c` meets a root within `n` steps. */
  ghost predicate RootWithin(entries: seq<FlatComment>, ids: set<string>, c: FlatComment, n: nat)
    decreases n
  {
    !Attaches(c, ids) ||
    (n > 0 && exists q | q in entries :: q.id == c.parentId.value && RootWithin(entries, ids, q, n - 1))
  }

  /** A chain that starts at a root and descends through replies. */
  ghost predicate IsPath(roots: seq<FlatComment>, replies: map<string, seq<FlatComment>>, path: seq<FlatComment>) {
    |path| > 0 && path[0] in roots &&
    forall k :: 0 <= k < |path| - 1 ==> path[k].id in replies && path[k + 1] in replies[path[k].id]
  }

  /** A nesting result: the roots and reply lists `NestComments` produces
      from these entries and ids. */
  ghost predicate Nested(entries: seq<FlatComment>, ids: set<string>,
                         roots: seq<FlatComment>, replies: map<string, seq<FlatComment>>) {
    roots == RootsOf(entries, ids) && replies.Keys == ids &&
    forall p :: p in replies ==> replies[p] == RepliesOf(entries, ids, p)
  }

  /** One step down: an entry attaching to `q` is among `q`'s replies. */
  lemma ReplyListed(entries: seq<FlatComment>, ids: set<string>, roots: seq<FlatComment>,
                    replies: map<string, seq<FlatComment>>, q: FlatComment, c: FlatComment)
    requires Nested(entries, ids, roots, replies)
    requires q.id in ids && c in entries && Attaches(c, ids) && c.parentId.value == q.id
    ensures q.id in replies && c in replies[q.id]
  {
    assert IsReplyTo(ids, q.id)(c);
    assert replies[q.id] == Filter(entries, IsReplyTo(ids, q.id));
  }

  /** A root is a path by itself. */
  lemma RootIsPath(entries: seq<FlatComment>, ids: set<string>, roots: seq<FlatComment>,
                   replies: map<string, seq<FlatComment>>, c: FlatComment)
    requires Nested(entries, ids, roots, replies)
    requires c in entries && !Attaches(c, ids)
    ensures IsPath(roots, replies, [c])
  {
    assert IsRoot(ids)(c);
    assert roots == Filter(entries, IsRoot(ids));
  }

  /** A path extends by one of its last comment's replies. */
  lemma ExtendPath(roots: seq<FlatComment>, replies: map<string, seq<FlatComment>>,
                   path: seq<FlatComment>, c: FlatComment)
    requires IsPath(roots, replies, path)
    requires path[|path| - 1].id in replies && c in replies[path[|path| - 1].id]
    ensures IsPath(roots, replies, path + [c])
  {
    var longer := path + [c];
    forall k | 0 <= k < |longer| - 1
      ensures longer[k].id in replies && longer[k + 1] in replies[longer[k].id]
    {
      if k < |path| - 1 {
        assert longer[k] == path[k] && longer[k + 1] == path[k + 1];
      }
    }
  }

  /** When parent links reach a root (they have no cycle), every entry is
      reachable from a root of the nested result. */
  lemma {:induction false} ReachableFromRoot(entries: seq<FlatComment>, ids: set<string>, roots: seq<FlatComment>,
                                             replies: map<string, seq<FlatComment>>, c: FlatComment, n: nat)
    requires Nested(entries, ids, roots, replies)
    requires forall q :: q in entries ==> q.id in ids
    requires c in entries && RootWithin(entries, ids, c, n)
    ensures exists path :: IsPath(roots, replies, path) && path[|path| - 1] == c
    decreases n
  {
    if !Attaches(c, ids) {
      RootIsPath(entries, ids, roots, replies, c);
      assert [c][0] == c;
    } else {
      var q :| q in entries && q.id == c.parentId.value && RootWithin(entries, ids, q, n - 1);
      ReachableFromRoot(entries, ids, roots, replies, q, n - 1);
      var path :| IsPath(roots, replies, path) && path[|path| - 1] == q;
      ReplyListed(entries, ids, roots, replies, q, c);
      ExtendPath(roots, replies, path, c);
      assert (path + [c])[|path + [c]| - 1] == c;
    }
  }

  /** Every entry's id is an id of the list. */
  lemma EntryIdsListed(comments: seq<FlatComment>)
    ensures forall q :: q in Entries(comments) ==> q.id in IdSet(comments)
  {
    var entries := Entries(comments);
    MapValuesKeys(comments, CommentId);
    DedupMembers(Keys(comments, CommentId));
    forall q | q in entries
      ensures q.id in IdSet(comments)
    {
      var i :| 0 <= i < |entries| && entries[i] == q;
      assert Keys(entries, CommentId)[i] == q.id;
      assert q.id in Keys(comments, CommentId);
      var j :| 0 <= j < |comments| && Keys(comments, CommentId)[j] == q.id;
      assert comments[j].id == q.id;
    }
  }

  /** Applied to `nestComments`: with acyclic parent links, every comment of
      the list is reachable from a returned root. */
  lemma NestedReachable(comments: seq<FlatComment>, roots: seq<FlatComment>,
                        replies: map<string, seq<FlatComment>>, c: FlatComment)
    requires Nested(Entries(comments), IdSet(comments), roots, replies)
    requires c in Entries(comments) && RootWithin(Entries(comments), IdSet(comments), c, |comments|)
    ensures exists path :: IsPath(roots, replies, path) && path[|path| - 1] == c
  {
    EntryIdsListed(comments);
    ReachableFromRoot(Entries(comments), IdSet(comments), roots, replies, c, |comments|);
  }

  /** Roots and the replies of one parent keep the order of `Object.values`. */
  lemma SiblingsKeepOrder(comments: seq<FlatComment>, parent: string, a: nat, b: nat)
    requires a < b < |Entries(comments)|
    requires Attaches(Entries(comments)[a], IdSet(comments)) && Entries(comments)[a].parentId.value == parent
    requires Attaches(Entries(comments)[b], IdSet(comments)) && Entries(comments)[b].parentId.value == parent
    ensures var r := RepliesOf(Entries(comments), IdSet(comments), parent);
      exists i, j :: 0 <= i < j < |r| && r[i] == Entries(comments)[a] && r[j] == Entries(comments)[b]
  {
    var ids := IdSet(comments);
    assert IsReplyTo(ids, parent)(Entries(comments)[a]) && IsReplyTo(ids, parent)(Entries(comments)[b]);
    FilterKeepsOrder(Entries(comments), IsReplyTo(ids, parent), a, b);
    assert RepliesOf(Entries(comments), ids, parent) == Filter(Entries(comments), IsReplyTo(ids, parent));
  }

  // ----- Avatar initials -----

  /** The ASCII letters and digits of `s`, in order. */
  function AlnumOnly(s: string): (r: string)
    ensures |r| <= |s|
    ensures forall i :: 0 <= i < |r| ==> IsAsciiAlnum(r[i]) && r[i] in s
    ensures forall i :: 0 <= i < |s| && IsAsciiAlnum(s[i]) ==> s[i] in r
    ensures |s| == 1 ==> r == if IsAsciiAlnum(s[0]) then s else []
  {
    if s == [] then []
    else
      var rest := AlnumOnly(s[1..]);
      assert forall c :: c in s[1..] ==> c in s;
      assert forall i :: 1 <= i < |s| ==> s[i] == s[1..][i - 1];
      (if IsAsciiAlnum(s[0]) then [s[0]] else []) + rest
  }

  /** Filtering a concatenation filters each piece, in order. */
  lemma {:induction false} AlnumOnlyAppend(a: string, b: string)
    ensures AlnumOnly(a + b) == AlnumOnly(a) + AlnumOnly(b)
  {
    if a == [] {
      assert a + b == b;
    } else {
      assert (a + b)[0] == a[0];
      assert (a + b)[1..] == a[1..] + b;
      AlnumOnlyAppend(a[1..], b);
    }
  }

  /** The initials shown without a profile image: the first two letters or
      digits of the name, upper-cased, or "U" for an empty name. */
  function Initials(name: string): (r: string)
    ensures name == "" ==> r == "U"
    ensures name != "" ==> |r| <= 2 && forall i :: 0 <= i < |r| ==> IsAsciiUpper(r[i]) || IsDigit(r[i])
    ensures name != "" ==>
              r == Upper(AlnumOnly(name)[..if |AlnumOnly(name)| < 2 then |AlnumOnly(name)| else 2])
  {
    if name == "" then "U"
    else
      var kept := AlnumOnly(name);
      Upper(kept[..if |kept| < 2 then |kept| else 2])
  }

  lemma {:induction false} AlnumOnlyOfSymbols(s: string)
    requires forall i :: 0 <= i < |s| ==> !IsAsciiAlnum(s[i])
    ensures AlnumOnly(s) == []
  {
    if s != [] {
      assert forall i :: 0 <= i < |s[1..]| ==> s[1..][i] == s[i + 1];
      AlnumOnlyOfSymbols(s[1..]);
    }
  }

  /** Symbols and spaces in front of a name do not change its initials. */
  lemma InitialsSkipSymbols(prefix: string, name: string)
    requires name != ""
    requires forall i :: 0 <= i < |prefix| ==> !IsAsciiAlnum(prefix[i])
    ensures Initials(prefix + name) == Initials(name)
  {
    AlnumOnlyAppend(prefix, name);
    AlnumOnlyOfSymbols(prefix);
    assert AlnumOnly(prefix + name) == AlnumOnly(name);
  }

  /** A name that is all letters and digits shows its first two characters,
      upper-cased. */
  lemma {:induction false} AlnumNameInitials(name: string)
    requires |name| >= 2 && forall i :: 0 <= i < |name| ==> IsAsciiAlnum(name[i])
    ensures Initials(name) == Upper(name[..2])
  {
    AlnumOnlyOfAlnum(name);
  }

  lemma {:induction false} AlnumOnlyOfAlnum(s: string)
    requires forall i :: 0 <= i < |s| ==> IsAsciiAlnum(s[i])
    ensures AlnumOnly(s) == s
  {
    if s != [] {
      AlnumOnlyOfAlnum(s[1..]);
    }
  }

  /** A non-empty name without letters or digits shows no initials at all. */
  lemma NoAlnumNoInitials()
    ensures Initials("!?") == ""
  {
    assert AlnumOnly("!?") == [] by {
      assert "!?"[1..] == "?";
      assert "?"[1..] == "";
    }
  }

  // ----- Posting a new comment -----

  /** The answer to the POST request. */
  datatype PostResult = PostOk | PostRejected(error: string) | PostThrew

  const LoginRequired := "You must be logged in to comment."
  const PostFailed := "Failed to post comment."

  /** The new-comment form's state. */
  class CommentForm {
    var newComment: string
    var error: string
    var isSubmitting: bool

    constructor ()
      ensures newComment == "" && error == "" && !isSubmitting
    {
      newComment, error, isSubmitting := "", "", false;
    }

    /** `handleSubmit`: a logged-out user only gets an error; a blank comment
        is ignored; otherwise the untrimmed text is sent and the outcome sets
        the error or clears the text. */
    method HandleSubmit(loggedIn: bool, result: PostResult) returns (sent: Option<string>)
      modifies this
      ensures !loggedIn ==>
        sent.None? && error == LoginRequired && newComment == old(newComment) && isSubmitting == old(isSubmitting)
      ensures loggedIn && Trim(old(newComment)) == "" ==>
        sent.None? && newComment == old(newComment) && error == old(error) && isSubmitting == old(isSubmitting)
      ensures loggedIn && Trim(old(newComment)) != "" ==> sent == Some(old(newComment)) && !isSubmitting
      ensures loggedIn && Trim(old(newComment)) != "" && result.PostOk? ==> newComment == "" && error == ""
      ensures loggedIn && Trim(old(newComment)) != "" && result.PostRejected? ==>
        newComment == old(newComment) && error == (if result.error != "" then result.error else PostFailed)
      ensures loggedIn && Trim(old(newComment)) != "" && result.PostThrew? ==>
        newComment == old(newComment) && error == PostFailed
    {
      if !loggedIn {
        error := LoginRequired;
        return None;
      }
      if Trim(newComment) == "" {
        return None;
      }
      isSubmitting := true;
      error := "";
      sent := Some(newComment);
      match result {
        case PostOk =>
          newComment := "";
        case PostRejected(e) =>
          error := if e != "" then e else PostFailed;
        case PostThrew =>
          error := PostFailed;
      }
      isSubmitting := false;
    }
  }

  /** A comment made only of whitespace is never sent. */
  lemma BlankNeverSent(text: string)
    requires forall i :: 0 <= i < |text| ==> IsSpace(text[i])
    ensures Trim(text) == ""
  {
    TrimEmptyIff(text);
  }
}
