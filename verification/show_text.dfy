/**
 * The Show Text rewrite of the extractor: every Show Text command (code
 * 101) becomes a script call (code 355) to `text` naming the key of its
 * entry, and the text lines (code 401) that follow it are deleted. The
 * scan records the index of every Show Text first; the rewrite then walks
 * those indices with a running `offset` that counts the commands deleted so
 * far. The entry written for each Show Text is a header (`[Key]`, `[Face]`,
 * `[Background]`, `[Position]`) followed by its lines.
 */
module ShowText {
  import opened Wrappers
  import opened RubyString
  import opened Tags
  import opened Parser
  import opened Commands
  import Choices

  // ---------------------------------------------------------------------------
  // Keys and the script call
  // ---------------------------------------------------------------------------

  /** What the keys of a page's texts start with, for each kind of event. */
  function PageKey(src: Choices.Source, mid: int, eid: int, pid: int): string {
    match src
    case MapEvent => "Map " + IntToString(mid) + " Event " + IntToString(eid) + " Page " + IntToString(pid + 1)
    case CommonEvent => "Common Event " + IntToString(eid)
    case TroopPage => "Troop " + IntToString(eid) + " Page " + IntToString(pid + 1)
  }

  /** The key of the `n`-th text of a page. */
  function TextKey(page: string, n: int): string {
    page + " Text " + IntToString(n)
  }

  /** The command a Show Text becomes: same object and indent, code 355, one script parameter. */
  function TextCall(c: Command, key: string): Command {
    Command(355, c.indent, [Str("text('" + key + "')")])
  }

  // ---------------------------------------------------------------------------
  // The rewrite, one command at a time
  // ---------------------------------------------------------------------------

  /** `done` in front of an outcome. */
  function Preceded(done: seq<Command>, r: Option<seq<Command>>): Option<seq<Command>> {
    match r
    case None => None
    case Some(rest) => Some(done + rest)
  }

  /**
   * The list after the rewrite, the first Show Text of `list` being the
   * `n`-th of the page. `None` when the lines after a Show Text run to the
   * end of the list: there the loop reads a command past the end and raises.
   */
  function Rewritten(list: seq<Command>, page: string, n: int): (r: Option<seq<Command>>)
    ensures r.Some? ==> |r.value| <= |list|
    decreases |list|, 0
  {
    if list == [] then Some([])
    else if list[0].code == 101 then Preceded([TextCall(list[0], TextKey(page, n))], AfterText(list[1..], page, n))
    else Preceded([list[0]], Rewritten(list[1..], page, n))
  }

  /** After the `n`-th Show Text: its lines are dropped, the rest is rewritten. */
  function AfterText(rest: seq<Command>, page: string, n: int): (r: Option<seq<Command>>)
    ensures r.Some? ==> rest != [] && |r.value| <= |rest|
    decreases |rest|, 1
  {
    if rest == [] then None
    else if rest[0].code == 401 then AfterText(rest[1..], page, n)
    else Rewritten(rest, page, n + 1)
  }

  // ---------------------------------------------------------------------------
  // The rewrite as the extractor performs it
  // ---------------------------------------------------------------------------

  /** The indices of the Show Text commands of `list`, in ascending order. */
  predicate IsTextRanges(list: seq<Command>, ranges: seq<nat>) {
    (forall a, b :: 0 <= a < b < |ranges| ==> ranges[a] < ranges[b]) &&
    (forall a :: 0 <= a < |ranges| ==> ranges[a] < |list| && list[ranges[a]].code == 101) &&
    (forall j :: 0 <= j < |list| && list[j].code == 101 ==> j in ranges)
  }

  /** The scan's `text_ranges`: each Show Text's index, in the order met. */
  method TextRanges(list: seq<Command>) returns (ranges: seq<nat>)
    ensures IsTextRanges(list, ranges)
  {
    ranges := [];
    var ci := 0;
    while ci < |list|
      invariant ci <= |list|
      invariant forall a, b :: 0 <= a < b < |ranges| ==> ranges[a] < ranges[b]
      invariant forall a :: 0 <= a < |ranges| ==> ranges[a] < ci && list[ranges[a]].code == 101
      invariant forall j :: 0 <= j < ci && list[j].code == 101 ==> j in ranges
    {
      if list[ci].code == 101 {
        ranges := ranges + [ci];
      }
      ci := ci + 1;
    }
  }

  /**
   * The state of the rewrite loop before the `ti`-th recorded index: the
   * page holds `done`, the rewritten commands before `cut` in the original
   * list, then the original commands from `cut` on; `offset` commands have
   * been deleted; and the rewrite of the whole list is `done` followed by
   * the rewrite of the rest.
   */
  ghost predicate Walked(list: seq<Command>, orig: seq<Command>, ranges: seq<nat>, ti: nat, offset: nat,
                         cut: int, done: seq<Command>, whole: Option<seq<Command>>, page: string)
  {
    IsTextRanges(orig, ranges) && ti <= |ranges| && offset <= cut <= |orig| &&
    list == done + orig[cut..] && |done| == cut - offset &&
    whole == Preceded(done, Rewritten(orig[cut..], page, ti + 1)) &&
    (ti < |ranges| ==> cut <= ranges[ti]) &&
    (forall j :: cut <= j < |orig| && orig[j].code == 101 ==> j in ranges[ti..])
  }

  /**
   * The rewrite loop: the `ti`-th recorded index, less the commands deleted
   * so far, is the Show Text to replace by a call naming text `ti + 1`; the
   * text lines after it are deleted one by one. The list fails to rewrite
   * when the last Show Text's lines run to its end: the source then reads
   * the code of the command past the end, which is `nil`.
   */
  method RewriteTexts(p: EventPage, ranges: seq<nat>, page: string) returns (failed: bool)
    requires IsTextRanges(p.list, ranges)
    modifies p
    ensures failed <==> Rewritten(old(p.list), page, 1).None?
    ensures !failed ==> p.list == Rewritten(old(p.list), page, 1).value
  {
    ghost var orig := p.list;
    ghost var whole := Rewritten(orig, page, 1);
    ghost var cut := 0;
    ghost var done: seq<Command> := [];
    var offset := 0;
    var ti := 0;
    PrecededNothing(whole);
    while ti < |ranges|
      invariant Walked(p.list, orig, ranges, ti, offset, cut, done, whole, page)
    {
      offset, failed, cut, done := RewriteStep(p, orig, ranges, ti, offset, cut, done, whole, page);
      if failed {
        return true;
      }
      ti := ti + 1;
    }
    WalkedAll(p.list, orig, ranges, ti, offset, cut, done, whole, page);
    return false;
  }

  /** One turn of the rewrite loop. */
  method RewriteStep(p: EventPage, ghost orig: seq<Command>, ranges: seq<nat>, ti: nat, offset: nat,
                     ghost cut: int, ghost done: seq<Command>, ghost whole: Option<seq<Command>>, page: string)
    returns (offset': nat, failed: bool, ghost cut': int, ghost done': seq<Command>)
    requires ti < |ranges| && Walked(p.list, orig, ranges, ti, offset, cut, done, whole, page)
    modifies p
    ensures failed ==> whole == None
    ensures !failed ==> Walked(p.list, orig, ranges, ti + 1, offset', cut', done', whole, page)
  {
    ghost var at := ranges[ti];
    var r := ranges[ti] - offset;
    var key := TextKey(page, ti + 1);
    ghost var head := done + orig[cut..at] + [TextCall(orig[at], key)];
    EnterText(orig, ranges, ti, cut, done, whole, page, key, head);
    ghost var tail := orig[at + 1..];
    Split(p.list, done, orig[cut..], orig[cut..at], orig[at..], r, tail);
    ghost var pre := done + orig[cut..at];
    offset' := ReplaceText(p, r, key, offset, pre, tail);
    ghost var del := offset' - offset;
    AfterDelete(head, tail, del, page, ti + 1);
    if r + 1 == |p.list| {
      return offset', true, cut, done;
    }
    failed := false;
    NextRange(orig, ranges, ti, tail, del);
    cut', done' := at + 1 + del, head;
    Advanced(orig, at, tail, del, cut', pre, done', p.list, whole, page, ti + 1);
  }

  /** Past the last recorded index, the rest holds no Show Text and the page is the rewrite. */
  lemma WalkedAll(list: seq<Command>, orig: seq<Command>, ranges: seq<nat>, ti: nat, offset: nat,
                  cut: int, done: seq<Command>, whole: Option<seq<Command>>, page: string)
    requires Walked(list, orig, ranges, ti, offset, cut, done, whole, page) && ti == |ranges|
    ensures whole == Some(list)
  {
    assert forall j :: cut <= j < |orig| ==> orig[j].code != 101;
    PlainFront(orig[cut..], [], page, ti + 1);
    assert orig[cut..] + [] == orig[cut..];
  }

  /**
   * `while list[pi].code == 401`: deletes the text lines at `pi`, adding one
   * to `offset` for each. Stops at the first other command or at the end of
   * the list (where the source reads past the end).
   */
  method DeleteLines(p: EventPage, pi: nat, offset: nat) returns (offset': nat)
    requires pi <= |p.list|
    modifies p
    ensures offset <= offset' && pi + (offset' - offset) <= |old(p.list)|
    ensures p.list == old(p.list)[..pi] + old(p.list)[pi + (offset' - offset)..]
    ensures forall k :: pi <= k < pi + (offset' - offset) ==> old(p.list)[k].code == 401
    ensures pi < |p.list| ==> p.list[pi].code != 401
  {
    offset' := offset;
    while pi < |p.list| && p.list[pi].code == 401
      invariant offset <= offset' && pi + (offset' - offset) <= |old(p.list)|
      invariant p.list == old(p.list)[..pi] + old(p.list)[pi + (offset' - offset)..]
      invariant forall k :: pi <= k < pi + (offset' - offset) ==> old(p.list)[k].code == 401
      decreases |p.list| - pi
    {
      offset' := offset' + 1;
      p.list := p.list[..pi] + p.list[pi + 1..];
    }
  }

  /**
   * One recorded Show Text: the command at `r` becomes the call naming `key`,
   * then the text lines after it are deleted.
   */
  method ReplaceText(p: EventPage, r: nat, key: string, offset: nat, ghost pre: seq<Command>, ghost tail: seq<Command>)
    returns (offset': nat)
    requires r < |p.list| && |pre| == r && p.list == pre + [p.list[r]] + tail
    modifies p
    ensures offset <= offset' && offset' - offset <= |tail|
    ensures p.list == pre + [TextCall(old(p.list)[r], key)] + tail[offset' - offset..]
    ensures forall m :: 0 <= m < offset' - offset ==> tail[m].code == 401
    ensures offset' - offset < |tail| ==> tail[offset' - offset].code != 401
  {
    ghost var call := TextCall(p.list[r], key);
    p.list := p.list[r := TextCall(p.list[r], key)];
    assert p.list == pre + [call] + tail;
    offset' := DeleteLines(p, r + 1, offset);
    ghost var del := offset' - offset;
    assert p.list == pre + [call] + tail[del..];
    forall m | 0 <= m < del ensures tail[m].code == 401 {
      assert tail[m] == (pre + [call] + tail)[r + 1 + m];
    }
    if del < |tail| {
      assert tail[del] == p.list[r + 1];
    }
  }

  // ---------------------------------------------------------------------------
  // Lemmas for the loop
  // ---------------------------------------------------------------------------

  lemma PrecededNothing(r: Option<seq<Command>>)
    ensures Preceded([], r) == r
  {
    if r.Some? {
      assert [] + r.value == r.value;
    }
  }

  lemma PrecededTwice(done: seq<Command>, more: seq<Command>, r: Option<seq<Command>>)
    ensures Preceded(done, Preceded(more, r)) == Preceded(done + more, r)
  {
    if r.Some? {
      assert done + (more + r.value) == (done + more) + r.value;
    }
  }

  /** Commands before the next Show Text pass through unchanged. */
  lemma {:induction false} PlainFront(a: seq<Command>, b: seq<Command>, page: string, n: int)
    requires forall j :: 0 <= j < |a| ==> a[j].code != 101
    ensures Rewritten(a + b, page, n) == Preceded(a, Rewritten(b, page, n))
    decreases |a|
  {
    if a == [] {
      assert a + b == b;
      PrecededNothing(Rewritten(b, page, n));
    } else {
      assert (a + b)[0] == a[0] && (a + b)[1..] == a[1..] + b;
      PlainFront(a[1..], b, page, n);
      PrecededTwice([a[0]], a[1..], Rewritten(b, page, n));
      assert [a[0]] + a[1..] == a;
    }
  }

  /** A Show Text in front: its call, then what follows its lines. */
  lemma TextFront(list: seq<Command>, page: string, n: int)
    requires list != [] && list[0].code == 101
    ensures Rewritten(list, page, n) == Preceded([TextCall(list[0], TextKey(page, n))], AfterText(list[1..], page, n))
  {
  }

  /** The recorded index is the next Show Text, and nothing between holds one. */
  lemma TextAhead(orig: seq<Command>, ranges: seq<nat>, ti: nat, cut: nat)
    requires IsTextRanges(orig, ranges) && ti < |ranges| && cut <= ranges[ti]
    requires forall j :: cut <= j < |orig| && orig[j].code == 101 ==> j in ranges[ti..]
    ensures ranges[ti] < |orig| && orig[ranges[ti]].code == 101
    ensures forall j :: 0 <= j < |orig[cut..ranges[ti]]| ==> orig[cut..ranges[ti]][j].code != 101
  {
    forall j | 0 <= j < |orig[cut..ranges[ti]]| ensures orig[cut..ranges[ti]][j].code != 101 {
      assert orig[cut..ranges[ti]][j] == orig[cut + j];
    }
  }

  /** Entering the `ti`-th Show Text: the commands before it are kept and it becomes its call. */
  lemma EnterText(orig: seq<Command>, ranges: seq<nat>, ti: nat, cut: nat, done: seq<Command>,
                  whole: Option<seq<Command>>, page: string, key: string, head: seq<Command>)
    requires IsTextRanges(orig, ranges) && ti < |ranges| && cut <= ranges[ti]
    requires forall j :: cut <= j < |orig| && orig[j].code == 101 ==> j in ranges[ti..]
    requires whole == Preceded(done, Rewritten(orig[cut..], page, ti + 1))
    requires key == TextKey(page, ti + 1)
    requires ranges[ti] < |orig| ==> head == done + orig[cut..ranges[ti]] + [TextCall(orig[ranges[ti]], key)]
    ensures ranges[ti] < |orig| && orig[ranges[ti]].code == 101
    ensures whole == Preceded(head, AfterText(orig[ranges[ti] + 1..], page, ti + 1))
    ensures orig[cut..] == orig[cut..ranges[ti]] + orig[ranges[ti]..]
    ensures orig[ranges[ti]..][0] == orig[ranges[ti]] && orig[ranges[ti]..][1..] == orig[ranges[ti] + 1..]
  {
    var at := ranges[ti];
    TextAhead(orig, ranges, ti, cut);
    PlainFront(orig[cut..at], orig[at..], page, ti + 1);
    assert orig[cut..] == orig[cut..at] + orig[at..];
    assert orig[at..][1..] == orig[at + 1..];
    TextFront(orig[at..], page, ti + 1);
    PrecededTwice(done, orig[cut..at], Preceded([TextCall(orig[at], key)], AfterText(orig[at + 1..], page, ti + 1)));
    PrecededTwice(done + orig[cut..at], [TextCall(orig[at], key)], AfterText(orig[at + 1..], page, ti + 1));
  }

  /** The list around the Show Text to replace: the commands before it, it, and the commands after it. */
  lemma Split(list: seq<Command>, done: seq<Command>, suffix: seq<Command>, mid: seq<Command>, rest: seq<Command>,
              r: nat, tail: seq<Command>)
    requires list == done + suffix && suffix == mid + rest && rest != [] && r == |done| + |mid| && tail == rest[1..]
    ensures r < |list| && list == (done + mid) + [list[r]] + tail && list[r] == rest[0] && |done + mid| == r
  {
  }

  /** The state after one replacement, in the terms of the loop invariant. */
  lemma Advanced(orig: seq<Command>, at: nat, tail: seq<Command>, del: nat, next: int, pre: seq<Command>, head: seq<Command>,
                 list: seq<Command>, whole: Option<seq<Command>>, page: string, n: int)
    requires at < |orig| && tail == orig[at + 1..] && del < |tail| && next == at + 1 + del
    requires head == pre + [TextCall(orig[at], TextKey(page, n))]
    requires list == pre + [TextCall(orig[at], TextKey(page, n))] + tail[del..]
    requires whole == Preceded(head, AfterText(tail, page, n))
    requires AfterText(tail, page, n) == Rewritten(tail[del..], page, n + 1)
    ensures 0 <= next <= |orig| && list == head + orig[next..]
    ensures whole == Preceded(head, Rewritten(orig[next..], page, n + 1))
  {
    assert tail[del..] == orig[at + 1 + del..];
  }

  /** After the lines are deleted: the outcome of what is left. */
  lemma AfterDelete(head: seq<Command>, tail: seq<Command>, del: nat, page: string, n: int)
    requires del <= |tail|
    requires forall m :: 0 <= m < del ==> tail[m].code == 401
    requires del < |tail| ==> tail[del].code != 401
    ensures Preceded(head, AfterText(tail, page, n)) == Preceded(head, AfterText(tail[del..], page, n))
    ensures del == |tail| ==> Preceded(head, AfterText(tail, page, n)) == None
    ensures del < |tail| ==> AfterText(tail, page, n) == Rewritten(tail[del..], page, n + 1)
  {
    LinesDropped(tail, del, page, n);
    if del < |tail| {
      assert tail[del..][0] == tail[del];
    } else {
      assert tail[del..] == [];
    }
  }

  /** The deleted commands are text lines: dropping them does not change the outcome. */
  lemma {:induction false} LinesDropped(tail: seq<Command>, del: nat, page: string, n: int)
    requires del <= |tail|
    requires forall m :: 0 <= m < del ==> tail[m].code == 401
    ensures AfterText(tail, page, n) == AfterText(tail[del..], page, n)
    decreases del
  {
    if del > 0 {
      LinesDropped(tail[1..], del - 1, page, n);
      assert tail[1..][del - 1..] == tail[del..];
    }
  }

  /** After the lines of the `ti`-th Show Text, the Show Texts left are the later recorded ones. */
  lemma NextRange(orig: seq<Command>, ranges: seq<nat>, ti: nat, tail: seq<Command>, del: nat)
    requires IsTextRanges(orig, ranges) && ti < |ranges| && ranges[ti] < |orig|
    requires tail == orig[ranges[ti] + 1..] && del <= |tail|
    requires forall m :: 0 <= m < del ==> tail[m].code == 401
    requires forall j :: ranges[ti] <= j < |orig| && orig[j].code == 101 ==> j in ranges[ti..]
    ensures ti + 1 < |ranges| ==> ranges[ti] + 1 + del <= ranges[ti + 1]
    ensures forall j :: ranges[ti] + 1 + del <= j < |orig| && orig[j].code == 101 ==> j in ranges[ti + 1..]
  {
    var next := ranges[ti] + 1 + del;
    if ti + 1 < |ranges| {
      var b := ranges[ti + 1];
      assert ranges[ti] < b && orig[b].code == 101;
    }
    forall j | next <= j < |orig| && orig[j].code == 101 ensures j in ranges[ti + 1..] {
      var a :| ti <= a < |ranges| && ranges[a] == j;
      assert a != ti;
      assert ranges[ti + 1..][a - ti - 1] == j;
    }
  }

  // ---------------------------------------------------------------------------
  // The rewrite stated command by command
  // ---------------------------------------------------------------------------

  /** How many Show Texts `list` holds. */
  function ShowTexts(list: seq<Command>): nat {
    if list == [] then 0 else (if list[0].code == 101 then 1 else 0) + ShowTexts(list[1..])
  }

  /** Every Show Text replaced by its call, numbered from `n` in order; the other commands unchanged. */
  function Numbered(list: seq<Command>, page: string, n: int): (r: seq<Command>)
    ensures |r| == |list|
  {
    if list == [] then []
    else if list[0].code == 101 then [TextCall(list[0], TextKey(page, n))] + Numbered(list[1..], page, n + 1)
    else [list[0]] + Numbered(list[1..], page, n)
  }

  /**
   * Which commands the rewrite deletes: a text line right after a Show Text
   * or after a deleted line. `run` says whether the command before
   * `list[0]` was one of those.
   */
  function Deleted(list: seq<Command>, run: bool): (d: seq<bool>)
    ensures |d| == |list|
  {
    if list == [] then []
    else
      var gone := run && list[0].code == 401;
      [gone] + Deleted(list[1..], list[0].code == 101 || gone)
  }

  /** The commands whose flag is not set. */
  function Kept(list: seq<Command>, flags: seq<bool>): seq<Command>
    requires |flags| == |list|
  {
    if list == [] then [] else (if flags[0] then [] else [list[0]]) + Kept(list[1..], flags[1..])
  }

  /** The text lines of a Show Text run to the end of the list. */
  predicate Dangles(list: seq<Command>, run: bool) {
    if list == [] then run else Dangles(list[1..], list[0].code == 101 || (run && list[0].code == 401))
  }

  /** The rewrite by the definitions above. */
  function Reference(list: seq<Command>, page: string, n: int, run: bool): Option<seq<Command>> {
    if Dangles(list, run) then None else Some(Kept(Numbered(list, page, n), Deleted(list, run)))
  }

  /**
   * `list[m]` would sit in a run of text lines: every command before it is a
   * text line continuing a run already open (`run`), or a Show Text comes
   * before it with only text lines between.
   */
  predicate InRun(list: seq<Command>, run: bool, m: nat)
    requires m <= |list|
  {
    (run && forall k :: 0 <= k < m ==> list[k].code == 401) ||
    exists i :: 0 <= i < m && list[i].code == 101 && forall k :: i < k < m ==> list[k].code == 401
  }

  /**
   * The rewrite deletes exactly the text lines that follow a Show Text, numbers
   * the Show Texts in order from `n`, and fails exactly when some Show
   * Text's lines run to the end of the list.
   */
  lemma {:induction false} RewrittenIsReference(list: seq<Command>, page: string, n: int)
    ensures Rewritten(list, page, n) == Reference(list, page, n, false)
    decreases |list|, 0
  {
    if list != [] {
      var c := list[0];
      if c.code == 101 {
        AfterTextIsReference(list[1..], page, n);
      } else {
        RewrittenIsReference(list[1..], page, n);
      }
    }
  }

  /** After a Show Text, the rewrite is the reference with a run of text lines open. */
  lemma {:induction false} AfterTextIsReference(rest: seq<Command>, page: string, n: int)
    ensures AfterText(rest, page, n) == Reference(rest, page, n + 1, true)
    decreases |rest|, 1
  {
    if rest != [] {
      if rest[0].code == 401 {
        AfterTextIsReference(rest[1..], page, n);
        var nb, dl := Numbered(rest, page, n + 1), Deleted(rest, true);
        assert nb[1..] == Numbered(rest[1..], page, n + 1) && dl[1..] == Deleted(rest[1..], true) && dl[0];
        assert Kept(nb, dl) == [] + Kept(nb[1..], dl[1..]) == Kept(nb[1..], dl[1..]);
        assert Dangles(rest, true) == Dangles(rest[1..], true);
      } else {
        RewrittenIsReference(rest, page, n + 1);
        assert Deleted(rest, true) == Deleted(rest, false);
      }
    }
  }

  /** The `j`-th command becomes the call of Show Text number `n` plus the number of Show Texts before it. */
  lemma {:induction false} NumberedAt(list: seq<Command>, page: string, n: int, j: nat)
    requires j < |list|
    ensures Numbered(list, page, n)[j] ==
            if list[j].code == 101 then TextCall(list[j], TextKey(page, n + ShowTexts(list[..j]))) else list[j]
    decreases j
  {
    if j > 0 {
      var n' := if list[0].code == 101 then n + 1 else n;
      NumberedAt(list[1..], page, n', j - 1);
      NumberedShift(list, page, n, j);
    } else {
      assert list[..j] == [];
    }
  }

  /** Position `j` of the numbered list is position `j - 1` of the numbered rest. */
  lemma NumberedShift(list: seq<Command>, page: string, n: int, j: nat)
    requires 0 < j < |list|
    ensures var n' := if list[0].code == 101 then n + 1 else n;
            Numbered(list, page, n)[j] == Numbered(list[1..], page, n')[j - 1] &&
            n + ShowTexts(list[..j]) == n' + ShowTexts(list[1..][..j - 1]) &&
            list[1..][j - 1] == list[j]
  {
    assert list[..j][1..] == list[1..][..j - 1];
    assert list[..j][0] == list[0];
  }

  /** One command further on, the run to decide is the one after the first command. */
  lemma InRunStep(list: seq<Command>, run: bool, m: nat)
    requires 1 <= m <= |list|
    ensures InRun(list[1..], list[0].code == 101 || (run && list[0].code == 401), m - 1) <==> InRun(list, run, m)
  {
    var run' := list[0].code == 101 || (run && list[0].code == 401);
    if InRun(list[1..], run', m - 1) {
      InRunBack(list, run, m);
    }
    if InRun(list, run, m) {
      InRunOn(list, run, m);
    }
  }

  lemma InRunBack(list: seq<Command>, run: bool, m: nat)
    requires 1 <= m <= |list|
    requires InRun(list[1..], list[0].code == 101 || (run && list[0].code == 401), m - 1)
    ensures InRun(list, run, m)
  {
    var t := list[1..];
    var run' := list[0].code == 101 || (run && list[0].code == 401);
    if run' && forall k :: 0 <= k < m - 1 ==> t[k].code == 401 {
      forall k | 0 < k < m ensures list[k].code == 401 {
        assert list[k] == t[k - 1];
      }
      if list[0].code != 101 {
        assert run && forall k :: 0 <= k < m ==> list[k].code == 401;
      }
    } else {
      var i :| 0 <= i < m - 1 && t[i].code == 101 && forall k :: i < k < m - 1 ==> t[k].code == 401;
      assert list[i + 1] == t[i];
      forall k | i + 1 < k < m ensures list[k].code == 401 {
        assert list[k] == t[k - 1];
      }
    }
  }

  lemma InRunOn(list: seq<Command>, run: bool, m: nat)
    requires 1 <= m <= |list|
    requires InRun(list, run, m)
    ensures InRun(list[1..], list[0].code == 101 || (run && list[0].code == 401), m - 1)
  {
    var t := list[1..];
    if run && forall k :: 0 <= k < m ==> list[k].code == 401 {
      forall k | 0 <= k < m - 1 ensures t[k].code == 401 {
        assert t[k] == list[k + 1];
      }
    } else {
      var i :| 0 <= i < m && list[i].code == 101 && forall k :: i < k < m ==> list[k].code == 401;
      if i == 0 {
        forall k | 0 <= k < m - 1 ensures t[k].code == 401 {
          assert t[k] == list[k + 1];
        }
      } else {
        assert t[i - 1] == list[i];
        forall k | i - 1 < k < m - 1 ensures t[k].code == 401 {
          assert t[k] == list[k + 1];
        }
      }
    }
  }

  /** A command is deleted exactly when it is a text line in a run after a Show Text. */
  lemma {:induction false} DeletedMeans(list: seq<Command>, run: bool, j: nat)
    requires j < |list|
    ensures Deleted(list, run)[j] <==> list[j].code == 401 && InRun(list, run, j)
    decreases j
  {
    if j > 0 {
      var run' := list[0].code == 101 || (run && list[0].code == 401);
      DeletedMeans(list[1..], run', j - 1);
      InRunStep(list, run, j);
    }
  }

  /** The rewrite fails exactly when the run of text lines is still open at the end of the list. */
  lemma {:induction false} DanglesMeans(list: seq<Command>, run: bool)
    ensures Dangles(list, run) <==> InRun(list, run, |list|)
    decreases |list|
  {
    if list != [] {
      DanglesMeans(list[1..], list[0].code == 101 || (run && list[0].code == 401));
      InRunStep(list, run, |list|);
    }
  }

  // ---------------------------------------------------------------------------
  // The entry of a Show Text
  // ---------------------------------------------------------------------------

  /** A Show Text command as the editor stores it: face file, face index, background, position. */
  predicate IsShowText(c: Command) {
    c.code == 101 && |c.params| >= 4 && c.params[0].Str? && c.params[1].Int? && c.params[2].Int? && c.params[3].Int?
  }

  /** `words[i]` interpolated: a negative index counts from the end; out of range it is `nil`, which interpolates as "". */
  function Nth(words: seq<string>, i: int): string {
    if 0 <= i < |words| then words[i]
    else if -|words| <= i < 0 then words[|words| + i]
    else ""
  }

  /** The `[Face]` line, when the command names a face file, then the `[Background]` and `[Position]` lines. */
  function OptionsText(c: Command): string
    requires IsShowText(c)
  {
    (if c.params[0].s == [] then "" else "[Face] " + c.params[0].s + ", " + IntToString(c.params[1].n) + "\n")
    + "[Background] " + Nth(BackgroundWords, c.params[2].n) + "\n"
    + "[Position] " + Nth(PositionWords, c.params[3].n) + "\n"
  }

  /** The header as the scan writes it: the `[Key]` line ends in "\n" only for map events. */
  function HeaderAsWritten(src: Choices.Source, key: string, c: Command): (h: string)
    requires IsShowText(c)
    ensures StartsWith(h, "\n[Key] " + key)
    ensures src == Choices.MapEvent ==> h == Header(key, c)
  {
    "\n" + "[Key] " + key + (if src == Choices.MapEvent then "\n" else "") + OptionsText(c)
  }

  /** The header with its `[Key]` line ended, for every kind of event. */
  function Header(key: string, c: Command): (h: string)
    requires IsShowText(c)
    ensures StartsWith(h, "\n[Key] " + key + "\n")
  {
    "\n" + "[Key] " + key + "\n" + OptionsText(c)
  }

  /** The entry of one Show Text: its header, then the parameter of each of its text lines on a line of its own. */
  method TextEntry(key: string, c: Command, lines: seq<string>) returns (et: string)
    requires IsShowText(c)
    ensures et == Header(key, c) + Choices.ChoiceLines(lines)
  {
    et := Header(key, c);
    var j := 0;
    while j < |lines|
      invariant 0 <= j <= |lines|
      invariant et == Header(key, c) + Choices.ChoiceLines(lines[..j])
    {
      Choices.ChoiceLinesSnoc(lines, j);
      et := et + (lines[j] + "\n");
      j := j + 1;
    }
    assert lines[..j] == lines;
  }

  /** Every text key is a plain one-line key. */
  lemma TextKeyPlain(src: Choices.Source, mid: int, eid: int, pid: int, n: int)
    ensures var k := TextKey(PageKey(src, mid, eid, pid), n);
            k != [] && !IsSpace(k[0]) && NoNewline(k)
  {
    Choices.IntToStringPlain(mid);
    Choices.IntToStringPlain(eid);
    Choices.IntToStringPlain(pid + 1);
    Choices.IntToStringPlain(n);
    var page := PageKey(src, mid, eid, pid);
    match src
    case MapEvent =>
      Choices.NoNewlineAppend("Map ", IntToString(mid));
      Choices.NoNewlineAppend("Map " + IntToString(mid), " Event ");
      Choices.NoNewlineAppend("Map " + IntToString(mid) + " Event ", IntToString(eid));
      Choices.NoNewlineAppend("Map " + IntToString(mid) + " Event " + IntToString(eid), " Page ");
      Choices.NoNewlineAppend("Map " + IntToString(mid) + " Event " + IntToString(eid) + " Page ", IntToString(pid + 1));
      KeyAppendPlain(page, n);
    case CommonEvent =>
      Choices.NoNewlineAppend("Common Event ", IntToString(eid));
      KeyAppendPlain(page, n);
    case TroopPage =>
      Choices.NoNewlineAppend("Troop ", IntToString(eid));
      Choices.NoNewlineAppend("Troop " + IntToString(eid), " Page ");
      Choices.NoNewlineAppend("Troop " + IntToString(eid) + " Page ", IntToString(pid + 1));
      KeyAppendPlain(page, n);
  }

  lemma KeyAppendPlain(page: string, n: int)
    requires page != [] && !IsSpace(page[0]) && NoNewline(page)
    ensures var k := TextKey(page, n); k != [] && !IsSpace(k[0]) && NoNewline(k)
  {
    Choices.IntToStringPlain(n);
    Choices.NoNewlineAppend(page, " Text ");
    Choices.NoNewlineAppend(page + " Text ", IntToString(n));
    assert TextKey(page, n)[0] == page[0];
  }

  /** The call names the key: its script is `text('`, the key, then `')`. */
  lemma CallNamesKey(c: Command, key: string)
    ensures var script := TextCall(c, key).params[0].s;
            StartsWith(script, "text('") && script[6..|script| - 2] == key && script[|script| - 2..] == "')"
  {
    var script := TextCall(c, key).params[0].s;
    assert script[..6] == "text('";
  }

  /** The interpolated words hold no line break. */
  lemma NthPlain(words: seq<string>, i: int)
    requires forall j :: 0 <= j < |words| ==> NoNewline(words[j])
    ensures NoNewline(Nth(words, i))
  {
  }

  lemma OptionWordsPlain(c: Command)
    requires IsShowText(c)
    ensures NoNewline(Nth(BackgroundWords, c.params[2].n)) && NoNewline(Nth(PositionWords, c.params[3].n))
  {
    assert NoNewline("Normal") && NoNewline("Dim") && NoNewline("Transparent");
    assert NoNewline("Top") && NoNewline("Center") && NoNewline("Bottom");
    NthPlain(BackgroundWords, c.params[2].n);
    NthPlain(PositionWords, c.params[3].n);
  }

  /** A blank line, then a whole line: the first two lines read. */
  lemma TwoLines(text: string, line: string, rest: string)
    requires text == "\n" + (line + rest) && IsLine(line) && EndsLine(line)
    ensures |ReadLines(text)| >= 2 && ReadLines(text)[..2] == ["\n", line]
  {
    Choices.TextLine("");
    assert "" + "\n" == "\n";
    ReadLinesFront("\n", line + rest);
    ReadLinesFront(line, rest);
  }

  /**
   * With its `[Key]` line ended, the header reads back as a blank line and
   * then a `[Key]` line naming exactly the key of the call.
   */
  lemma HeaderKeyLine(key: string, c: Command)
    requires IsShowText(c) && key != [] && !IsSpace(key[0]) && NoNewline(key)
    ensures |ReadLines(Header(key, c))| >= 2
    ensures ReadLines(Header(key, c))[..2] == ["\n", "[Key] " + key + "\n"]
    ensures ParseTag(ReadLines(Header(key, c))[1]) == Some(Key(key))
  {
    var keyLine := "[Key] " + key + "\n";
    assert Header(key, c) == "\n" + (keyLine + OptionsText(c));
    Choices.KeyLineIsLine(key);
    TwoLines(Header(key, c), keyLine, OptionsText(c));
    Choices.KeyLineTag(key);
  }

  /** For a map event the header as written is the header with its `[Key]` line ended. */
  lemma MapHeaderEnded(key: string, c: Command)
    requires IsShowText(c)
    ensures HeaderAsWritten(Choices.MapEvent, key, c) == Header(key, c)
  {
  }

  /** Without a face and without the "\n", the `[Key]` line runs on into the `[Background]` line. */
  lemma RunOnHeader(src: Choices.Source, key: string, c: Command, w: string, rest: string)
    requires src != Choices.MapEvent && IsShowText(c) && c.params[0].s == []
    requires w == Nth(BackgroundWords, c.params[2].n)
    requires rest == "[Position] " + Nth(PositionWords, c.params[3].n) + "\n"
    ensures HeaderAsWritten(src, key, c) == "\n" + (("[Key] " + (key + "[Background] " + w) + "\n") + rest)
  {
  }

  /**
   * For a common event or a troop page, the header as written runs the
   * `[Key]` line into the next one: with no face, the key read back is the
   * key followed by the whole `[Background]` line, not the key of the call.
   */
  lemma KeyLineSwallowsOptions(src: Choices.Source, key: string, c: Command)
    requires src != Choices.MapEvent && IsShowText(c) && c.params[0].s == []
    requires key != [] && !IsSpace(key[0]) && NoNewline(key)
    ensures var read := key + "[Background] " + Nth(BackgroundWords, c.params[2].n);
            |ReadLines(HeaderAsWritten(src, key, c))| >= 2 &&
            ReadLines(HeaderAsWritten(src, key, c))[..2] == ["\n", "[Key] " + read + "\n"] &&
            ParseTag(ReadLines(HeaderAsWritten(src, key, c))[1]) == Some(Key(read)) &&
            read != key
  {
    var w := Nth(BackgroundWords, c.params[2].n);
    var read := key + "[Background] " + w;
    var rest := "[Position] " + Nth(PositionWords, c.params[3].n) + "\n";
    RunOnHeader(src, key, c, w, rest);
    OptionWordsPlain(c);
    RunOnKeyPlain(key, w);
    Choices.KeyLineIsLine(read);
    TwoLines(HeaderAsWritten(src, key, c), "[Key] " + read + "\n", rest);
    Choices.KeyLineTag(read);
  }

  lemma RunOnKeyPlain(key: string, w: string)
    requires key != [] && !IsSpace(key[0]) && NoNewline(key) && NoNewline(w)
    ensures var read := key + "[Background] " + w;
            read != [] && !IsSpace(read[0]) && NoNewline(read) && read != key
  {
    Choices.NoNewlineAppend(key, "[Background] ");
    Choices.NoNewlineAppend(key + "[Background] ", w);
    var read := key + "[Background] " + w;
    assert read[0] == key[0] && |read| > |key|;
  }
}
