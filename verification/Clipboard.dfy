/** Agent pastes through the person's clipboard: save, replace, paste, put back; with helpers that may
    crash at any point, and leftovers that the next helper recovers. */
module Clipboard {
  import opened Basics

  type Pid = nat
  type Token = nat

  /** One type on the pasteboard; data that cannot be read is a promise nobody answers. */
  datatype Entry = Entry(kind: nat, data: Option<nat>)
  type Item = seq<Entry>
  type Items = seq<Item>

  const TOKEN_KIND: nat := 0
  const TRANSIENT_KIND: nat := 1
  const AUTO_KIND: nat := 2
  const TEXT_KIND: nat := 3
  const HTML_KIND: nat := 4

  datatype Save = Save(owner: Pid, token: Token, items: Items)

  // ----- Reading and writing the board -----

  function ReadableEntries(item: Item): Item {
    if item == [] then [] else (if item[0].data.Some? then [item[0]] else []) + ReadableEntries(item[1..])
  }

  /** What a snapshot keeps: every item, without the data that could not be read. */
  function Readable(items: Items): Items {
    if items == [] then [] else [ReadableEntries(items[0])] + Readable(items[1..])
  }

  function ItemToken(item: Item): Option<Token> {
    if item == [] then None
    else if item[0].kind == TOKEN_KIND && item[0].data.Some? then Some(item[0].data.value)
    else ItemToken(item[1..])
  }

  /** The agent's token on the board, if the board carries one. */
  function BoardToken(items: Items): Option<Token> {
    if items == [] then None
    else if ItemToken(items[0]).Some? then ItemToken(items[0])
    else BoardToken(items[1..])
  }

  /** The agent's content: rich text when there is some, plain text, marks for clipboard managers, token. */
  function AgentItems(plain: nat, html: Option<nat>, token: Token): Items {
    [(if html.Some? then [Entry(HTML_KIND, html)] else [])
     + [Entry(TEXT_KIND, Some(plain)), Entry(TRANSIENT_KIND, Some(0)), Entry(AUTO_KIND, Some(0)),
        Entry(TOKEN_KIND, Some(token))]]
  }

  predicate ShouldRestore(save: Save, boardToken: Option<Token>, ownerAlive: bool, isMine: bool) {
    boardToken == Some(save.token) && (isMine || !ownerAlive)
  }

  lemma AgentToken(plain: nat, html: Option<nat>, token: Token)
    ensures BoardToken(AgentItems(plain, html, token)) == Some(token)
  {
    var tail := [Entry(TEXT_KIND, Some(plain)), Entry(TRANSIENT_KIND, Some(0)), Entry(AUTO_KIND, Some(0)),
                 Entry(TOKEN_KIND, Some(token))];
    assert tail[1..][1..][1..] == [Entry(TOKEN_KIND, Some(token))];
    assert ItemToken(tail[1..][1..][1..]) == Some(token);
    assert ItemToken(tail[1..][1..]) == Some(token);
    assert ItemToken(tail[1..]) == Some(token);
    assert ItemToken(tail) == Some(token);
    var item := AgentItems(plain, html, token)[0];
    if html.Some? { assert item[1..] == tail; } else { assert item == tail; }
  }

  /** What an app that asks the board for a type is given: the first entry of that type. */
  function Read(items: Items, kind: nat): Option<nat> {
    if items == [] then None
    else if Holding(items[0], kind).Some? then Holding(items[0], kind)
    else Read(items[1..], kind)
  }

  function Holding(item: Item, kind: nat): Option<nat> {
    if item == [] then None
    else if item[0].kind == kind then item[0].data
    else Holding(item[1..], kind)
  }

  /** An app that the agent pastes into is given its plain text, and its rich text if there is some. */
  lemma AgentText(plain: nat, html: Option<nat>, token: Token)
    ensures Read(AgentItems(plain, html, token), TEXT_KIND) == Some(plain)
    ensures Read(AgentItems(plain, html, token), HTML_KIND) == html
    ensures AllReadable(AgentItems(plain, html, token))
  {
    var tail := [Entry(TEXT_KIND, Some(plain)), Entry(TRANSIENT_KIND, Some(0)), Entry(AUTO_KIND, Some(0)),
                 Entry(TOKEN_KIND, Some(token))];
    var item := AgentItems(plain, html, token)[0];
    assert Holding(tail, TEXT_KIND) == Some(plain);
    if html.Some? {
      assert item[1..] == tail && item[0] == Entry(HTML_KIND, html);
    } else {
      assert item == tail;
      assert tail[1..][1..][1..][1..] == [];
      assert Holding(tail[1..][1..][1..], HTML_KIND) == None;
      assert Holding(tail[1..][1..], HTML_KIND) == None;
      assert Holding(tail[1..], HTML_KIND) == None;
      assert Holding(tail, HTML_KIND) == None;
    }
    assert Holding(item, TEXT_KIND) == Some(plain) && Holding(item, HTML_KIND) == html;
    assert AgentItems(plain, html, token)[1..] == [];
  }

  lemma {:induction false} ReadableEntriesToken(item: Item)
    ensures ItemToken(ReadableEntries(item)) == ItemToken(item)
    ensures ReadableEntries(ReadableEntries(item)) == ReadableEntries(item)
  {
    if item != [] {
      ReadableEntriesToken(item[1..]);
      if item[0].data.Some? { assert ReadableEntries(item)[1..] == ReadableEntries(item[1..]); }
      else { assert ReadableEntries(item) == ReadableEntries(item[1..]); }
    }
  }

  /** Dropping unreadable data loses no token, and doing it twice changes nothing. */
  lemma {:induction false} ReadableToken(items: Items)
    ensures BoardToken(Readable(items)) == BoardToken(items)
    ensures Readable(Readable(items)) == Readable(items)
  {
    if items != [] {
      ReadableEntriesToken(items[0]);
      ReadableToken(items[1..]);
      assert Readable(items)[1..] == Readable(items[1..]);
    }
  }

  /** Every entry on the board can be read. */
  predicate AllReadable(items: Items) {
    forall i, j :: 0 <= i < |items| && 0 <= j < |items[i]| ==> items[i][j].data.Some?
  }

  lemma {:induction false} ReadableEntriesIs(item: Item)
    ensures ReadableEntries(item) == Filter(item, (e: Entry) => e.data.Some?)
    ensures (forall j :: 0 <= j < |item| ==> item[j].data.Some?) ==> ReadableEntries(item) == item
  {
    if item != [] {
      ReadableEntriesIs(item[1..]);
      assert item == [item[0]] + item[1..];
    }
  }

  /** A snapshot keeps every item and, in order, exactly the entries whose data is there. */
  lemma {:induction false} ReadableIs(items: Items)
    ensures |Readable(items)| == |items|
    ensures forall i :: 0 <= i < |items| ==> Readable(items)[i] == Filter(items[i], (e: Entry) => e.data.Some?)
    ensures AllReadable(items) ==> Readable(items) == items
  {
    hide ReadableEntries; hide Filter;
    if items != [] {
      ReadableEntriesIs(items[0]);
      ReadableIs(items[1..]);
      assert items == [items[0]] + items[1..];
      assert AllReadable(items) ==> AllReadable(items[1..]) by {
        assert forall i :: 0 <= i < |items| - 1 ==> items[1..][i] == items[i + 1];
      }
    }
  }

  // ----- Helpers, disk and board as one state -----

  /** How far a helper is. */
  datatype Phase =
    | Recovering(todo: set<Token>)     // leftovers listed at launch and not yet looked at
    | Dropping(file: Token, todo: set<Token>) // looked at, its file still to be removed
    | Ready
    | Snapped(save: Save)              // clipboard read, nothing on disk yet
    | Saved(save: Save)                // on disk and pending
    | Wrote(save: Save)                // the agent's content is on the board
    | Checked(save: Save)              // put back, or left to whoever wrote since
    | Removed(save: Save)              // file removed, still pending

  datatype World = World(
    board: Items,
    disk: map<Token, Save>,
    helpers: map<Pid, Phase>,
    used: set<Token>,
    person: Items,                     // what the person last put on the board
    lost: bool)                        // since then, a write covered a board its save does not hold

  /** Puts a save back if the board still holds its own agent content. */
  function Restored(board: Items, save: Save): Items {
    if BoardToken(board) == Some(save.token) then save.items else board
  }

  ghost predicate Launch(w: World, x: World, p: Pid) {
    p !in w.helpers && x == w.(helpers := w.helpers[p := Recovering(w.disk.Keys)])
  }

  /** A leftover is looked at: skipped while its owner lives, put back if it still applies. */
  ghost predicate Look(w: World, x: World, p: Pid, f: Token) {
    && p in w.helpers && w.helpers[p].Recovering? && f in w.helpers[p].todo
    && var todo := w.helpers[p].todo - {f};
       if f !in w.disk then x == w.(helpers := w.helpers[p := Recovering(todo)])
       else
         var save := w.disk[f];
         var ownerAlive := save.owner != p && save.owner in w.helpers;
         if ownerAlive then x == w.(helpers := w.helpers[p := Recovering(todo)])
         else
           var board := if ShouldRestore(save, BoardToken(w.board), false, false) then save.items else w.board;
           x == w.(board := board, helpers := w.helpers[p := Dropping(f, todo)])
  }

  ghost predicate Drop(w: World, x: World, p: Pid) {
    && p in w.helpers && w.helpers[p].Dropping?
    && x == w.(disk := w.disk - {w.helpers[p].file}, helpers := w.helpers[p := Recovering(w.helpers[p].todo)])
  }

  ghost predicate Recovered(w: World, x: World, p: Pid) {
    p in w.helpers && w.helpers[p] == Recovering({}) && x == w.(helpers := w.helpers[p := Ready])
  }

  ghost predicate Snap(w: World, x: World, p: Pid, token: Token) {
    && p in w.helpers && w.helpers[p].Ready? && token !in w.used
    && x == w.(used := w.used + {token}, helpers := w.helpers[p := Snapped(Save(p, token, Readable(w.board)))])
  }

  ghost predicate Persist(w: World, x: World, p: Pid) {
    && p in w.helpers && w.helpers[p].Snapped?
    && var save := w.helpers[p].save;
       x == w.(disk := w.disk[save.token := save], helpers := w.helpers[p := Saved(save)])
  }

  ghost predicate WriteAgent(w: World, x: World, p: Pid, plain: nat, html: Option<nat>) {
    && p in w.helpers && w.helpers[p].Saved?
    && var save := w.helpers[p].save;
       x == w.(board := AgentItems(plain, html, save.token), helpers := w.helpers[p := Wrote(save)],
               lost := w.lost || save.items != Readable(w.board))
  }

  ghost predicate CheckBack(w: World, x: World, p: Pid) {
    && p in w.helpers && w.helpers[p].Wrote?
    && var save := w.helpers[p].save;
       x == w.(board := Restored(w.board, save), helpers := w.helpers[p := Checked(save)])
  }

  ghost predicate RemoveFile(w: World, x: World, p: Pid) {
    && p in w.helpers && w.helpers[p].Checked?
    && x == w.(disk := w.disk - {w.helpers[p].save.token}, helpers := w.helpers[p := Removed(w.helpers[p].save)])
  }

  ghost predicate Finish(w: World, x: World, p: Pid) {
    p in w.helpers && w.helpers[p].Removed? && x == w.(helpers := w.helpers[p := Ready])
  }

  /** The save a signal handler finds pending. */
  function Pending(phase: Phase): Option<Save> {
    match phase
    case Saved(save) => Some(save)
    case Wrote(save) => Some(save)
    case Checked(save) => Some(save)
    case Removed(save) => Some(save)
    case _ => None
  }

  /** A signal or the end of the input: the pending save goes back, its file goes, the helper ends. */
  ghost predicate Signal(w: World, x: World, p: Pid) {
    && p in w.helpers
    && match Pending(w.helpers[p])
       case None => x == w.(helpers := w.helpers - {p})
       case Some(save) =>
         var board := if ShouldRestore(save, BoardToken(w.board), true, true) then save.items else w.board;
         x == w.(board := board, disk := w.disk - {save.token}, helpers := w.helpers - {p})
  }

  ghost predicate Crash(w: World, x: World, p: Pid) {
    p in w.helpers && x == w.(helpers := w.helpers - {p})
  }

  /** The person copies something; only the agent writes its token. */
  ghost predicate Copy(w: World, x: World, items: Items) {
    BoardToken(items) == None && x == w.(board := items, person := items, lost := false)
  }

  /** The steps of helper `p` that write no agent content. */
  ghost predicate Tidying(w: World, x: World, p: Pid) {
    || Launch(w, x, p) || Drop(w, x, p) || Recovered(w, x, p) || Persist(w, x, p) || CheckBack(w, x, p)
    || RemoveFile(w, x, p) || Finish(w, x, p) || Signal(w, x, p) || Crash(w, x, p)
    || (exists f: Token :: Look(w, x, p, f)) || (exists t: Token :: Snap(w, x, p, t))
  }

  ghost predicate Writing(w: World, x: World, p: Pid) {
    exists plain: nat, html: Option<nat> :: WriteAgent(w, x, p, plain, html)
  }

  // ----- Any number of helpers: restoring never overwrites the person -----

  /** Whatever any helper does short of writing agent content, a board without a token is not
      touched, and a board with a token changes only by the save that carries that token. */
  lemma RestoreOnlyOwnContent(w: World, x: World, p: Pid)
    requires Tidying(w, x, p)
    ensures x.board != w.board ==>
              exists save: Save :: BoardToken(w.board) == Some(save.token) && x.board == save.items
                && (save in w.disk.Values || (p in w.helpers && Pending(w.helpers[p]) == Some(save)))
    ensures x.person == w.person
  {
    if f: Token :| Look(w, x, p, f) && x.board != w.board {
      assert w.disk[f] in w.disk.Values;
      assert BoardToken(w.board) == Some(w.disk[f].token);
    } else if CheckBack(w, x, p) && x.board != w.board {
      assert Pending(w.helpers[p]) == Some(w.helpers[p].save);
    } else if Signal(w, x, p) && x.board != w.board {
      assert Pending(w.helpers[p]).Some?;
    }
  }

  ghost predicate QuietStep(w: World, x: World) {
    exists p: Pid :: Tidying(w, x, p)
  }

  ghost predicate QuietRun(run: seq<World>) {
    run != [] && forall i :: 0 <= i < |run| - 1 ==> QuietStep(run[i], run[i + 1])
  }

  /** Once the person's content is on the board it stays there, through any pastes already begun,
      crashes, restarts and recoveries of any helpers, until someone writes again. */
  lemma {:induction false} PersonKeepsTheBoard(run: seq<World>, n: nat)
    requires QuietRun(run) && n < |run| && BoardToken(run[0].board) == None
    ensures run[n].board == run[0].board && run[n].person == run[0].person
  {
    if n > 0 {
      PersonKeepsTheBoard(run, n - 1);
      var w, x := run[n - 1], run[n - 1 + 1];
      assert QuietStep(w, x);
      var p: Pid :| Tidying(w, x, p);
      RestoreOnlyOwnContent(w, x, p);
    }
  }

  // ----- One helper at a time: the person's clipboard comes back -----

  ghost predicate SoloStep(w: World, x: World) {
    || (exists p: Pid :: (Launch(w, x, p) ==> w.helpers == map[]) && (Tidying(w, x, p) || Writing(w, x, p)))
    || (exists items: Items :: Copy(w, x, items))
  }

  ghost predicate Start(w: World) {
    w.board == w.person && BoardToken(w.board) == None && w.disk == map[] && w.helpers == map[] && !w.lost
  }

  ghost predicate SoloRun(run: seq<World>) {
    run != [] && Start(run[0]) && forall i :: 0 <= i < |run| - 1 ==> SoloStep(run[i], run[i + 1])
  }

  /** A save on disk is what a snapshot of the person's own content gives. */
  ghost predicate DiskIsSound(w: World) {
    forall t :: t in w.disk ==>
      t in w.used && w.disk[t].token == t && BoardToken(w.disk[t].items) == None
          && Readable(w.disk[t].items) == w.disk[t].items
  }

  /** The board, or the save on disk of the agent content it holds, is the readable part of what the
      person last put there exactly when that was not lost. */
  ghost predicate BoardIsSafe(w: World) {
    match BoardToken(w.board)
    case None =>
      && (Readable(w.board) == Readable(w.person) <==> !w.lost)
      && (!w.lost ==> w.board == w.person || w.board == Readable(w.person))
    case Some(t) => t in w.disk && (w.disk[t].items == Readable(w.person) <==> !w.lost)
  }

  ghost predicate PhaseFits(w: World, phase: Phase) {
    var token := BoardToken(w.board);
    match phase
    case Recovering(todo) => token.Some? ==> token.value in todo
    case Dropping(f, todo) => f !in todo && (token.Some? ==> token.value in todo)
    case Snapped(save) =>
      && token == None && (save.items == Readable(w.board) || !w.lost) && BoardToken(save.items) == None
      && Readable(save.items) == save.items && save.token in w.used && save.token !in w.disk
    case Saved(save) =>
      && token == None && (save.items == Readable(w.board) || !w.lost)
      && save.token in w.disk && w.disk[save.token] == save
    case Wrote(save) => (token == None || token == Some(save.token)) && save.token in w.disk
        && w.disk[save.token] == save
    case _ => token == None
  }

  ghost predicate SoloInv(w: World) {
    && DiskIsSound(w) && BoardIsSafe(w)
    && (forall p, q :: p in w.helpers && q in w.helpers ==> p == q)
    && (forall p :: p in w.helpers ==> PhaseFits(w, w.helpers[p]))
  }

  lemma LookKeeps(w: World, x: World, p: Pid, f: Token)
    requires SoloInv(w) && Look(w, x, p, f)
    ensures SoloInv(x)
  {
    assert PhaseFits(w, w.helpers[p]);
    if f in w.disk { ReadableToken(w.disk[f].items); }
  }

  lemma SnapKeeps(w: World, x: World, p: Pid, token: Token)
    requires SoloInv(w) && Snap(w, x, p, token)
    ensures SoloInv(x)
  {
    assert PhaseFits(w, w.helpers[p]);
    ReadableToken(w.board);
  }

  lemma WriteKeeps(w: World, x: World, p: Pid, plain: nat, html: Option<nat>)
    requires SoloInv(w) && WriteAgent(w, x, p, plain, html)
    ensures SoloInv(x)
  {
    hide AgentItems; hide BoardToken; hide Readable;
    assert PhaseFits(w, w.helpers[p]);
    AgentToken(plain, html, w.helpers[p].save.token);
  }

  lemma BackKeeps(w: World, x: World, p: Pid)
    requires SoloInv(w) && (CheckBack(w, x, p) || Signal(w, x, p))
    ensures SoloInv(x)
  {
    hide BoardToken; hide Readable;
    assert PhaseFits(w, w.helpers[p]);
  }

  lemma FileKeeps(w: World, x: World, p: Pid)
    requires SoloInv(w) && (Drop(w, x, p) || RemoveFile(w, x, p) || Persist(w, x, p))
    ensures SoloInv(x)
  {
    hide BoardToken; hide Readable;
    assert PhaseFits(w, w.helpers[p]);
  }

  lemma RestKeeps(w: World, x: World, p: Pid)
    requires SoloInv(w)
    requires (Launch(w, x, p) && w.helpers == map[]) || Recovered(w, x, p) || Finish(w, x, p) || Crash(w, x, p)
    ensures SoloInv(x)
  {
    hide BoardToken; hide Readable;
    if p in w.helpers { assert PhaseFits(w, w.helpers[p]); }
  }

  lemma CopyKeeps(w: World, x: World, items: Items)
    requires SoloInv(w) && Copy(w, x, items)
    ensures SoloInv(x)
  {
    hide BoardToken; hide Readable;
    forall p | p in x.helpers ensures PhaseFits(x, x.helpers[p]) { assert PhaseFits(w, w.helpers[p]); }
  }

  lemma SoloKeeps(w: World, x: World)
    requires SoloInv(w) && SoloStep(w, x)
    ensures SoloInv(x)
  {
    hide SoloInv; hide Look; hide Snap; hide WriteAgent; hide CheckBack; hide Signal; hide Drop; hide RemoveFile;
    hide Persist; hide Launch; hide Recovered; hide Finish; hide Crash; hide Copy;
    if p: Pid :| (Launch(w, x, p) ==> w.helpers == map[]) && (Tidying(w, x, p) || Writing(w, x, p)) {
      if f: Token :| Look(w, x, p, f) { LookKeeps(w, x, p, f); }
      else if t: Token :| Snap(w, x, p, t) { SnapKeeps(w, x, p, t); }
      else if Writing(w, x, p) {
        var plain: nat, html: Option<nat> :| WriteAgent(w, x, p, plain, html);
        WriteKeeps(w, x, p, plain, html);
      }
      else if CheckBack(w, x, p) || Signal(w, x, p) { BackKeeps(w, x, p); }
      else if Drop(w, x, p) || RemoveFile(w, x, p) || Persist(w, x, p) { FileKeeps(w, x, p); }
      else { RestKeeps(w, x, p); }
    } else {
      var items: Items :| Copy(w, x, items);
      CopyKeeps(w, x, items);
    }
  }

  lemma {:induction false} SoloRunKeeps(run: seq<World>, n: nat)
    requires SoloRun(run) && n < |run|
    ensures SoloInv(run[n])
  {
    hide SoloStep; hide BoardToken; hide Readable;
    if n > 0 {
      SoloRunKeeps(run, n - 1);
      assert SoloStep(run[n - 1], run[n - 1 + 1]);
      SoloKeeps(run[n - 1], run[n]);
    }
  }

  /** In every run of pastes, copies, crashes at any point, signals and restarts, whenever a helper has
      recovered and no paste is under way, the board carries no agent token; and it holds the readable
      part of what the person last put there if and only if no write since then covered a board that
      its own save does not hold. What could all be read comes back as it was. */
  lemma ClipboardComesBack(run: seq<World>, n: nat, p: Pid)
    requires SoloRun(run) && n < |run| && p in run[n].helpers && run[n].helpers[p].Ready?
    ensures BoardToken(run[n].board) == None
    ensures Readable(run[n].board) == Readable(run[n].person) <==> !run[n].lost
    ensures !run[n].lost && AllReadable(run[n].person) ==> run[n].board == run[n].person
  {
    hide Readable; hide AllReadable;
    SoloRunKeeps(run, n);
    assert PhaseFits(run[n], run[n].helpers[p]);
    ReadableIs(run[n].person);
  }

  /** Even with no helper left, what the board lacks is on disk for the next one to put back, unless
      such a write lost it. */
  lemma NothingIsLostByCrashing(run: seq<World>, n: nat)
    requires SoloRun(run) && n < |run|
    ensures var w := run[n];
            match BoardToken(w.board)
            case None => Readable(w.board) == Readable(w.person) <==> !w.lost
            case Some(t) => t in w.disk && (w.disk[t].items == Readable(w.person) <==> !w.lost)
  {
    SoloRunKeeps(run, n);
  }

  /** A paste has read the clipboard and not yet replaced it. */
  ghost predicate Hurried(w: World) {
    exists p: Pid :: p in w.helpers && (w.helpers[p].Snapped? || w.helpers[p].Saved?)
  }

  /** Nobody copies while a paste is between its snapshot and its write. */
  ghost predicate Unhurried(run: seq<World>) {
    forall i :: 0 <= i < |run| - 1 && Hurried(run[i]) ==> run[i + 1].board == run[i].board || Writes(run[i], run[i + 1])
  }

  ghost predicate Writes(w: World, x: World) {
    exists p: Pid :: Writing(w, x, p)
  }

  /** What a paste is about to put back is what is on the board. */
  ghost predicate Fresh(w: World) {
    && !w.lost
    && forall p :: p in w.helpers && (w.helpers[p].Snapped? || w.helpers[p].Saved?) ==>
         w.helpers[p].save.items == Readable(w.board)
  }

  lemma FreshStep(w: World, x: World)
    requires SoloInv(w) && SoloStep(w, x) && Fresh(w)
    requires Hurried(w) ==> x.board == w.board || Writes(w, x)
    ensures Fresh(x)
  {
    hide Readable; hide SoloInv; hide Tidying; hide Writing; hide Copy; hide Fresh; hide Hurried; hide Writes;
    if items: Items :| Copy(w, x, items) {
      CopyFresh(w, x, items);
    } else {
      var p: Pid :| (Launch(w, x, p) ==> w.helpers == map[]) && (Tidying(w, x, p) || Writing(w, x, p));
      if Writing(w, x, p) { WriteFresh(w, x, p); } else { TidyFresh(w, x, p); }
    }
  }

  lemma CopyFresh(w: World, x: World, items: Items)
    requires Fresh(w) && Copy(w, x, items) && (Hurried(w) ==> x.board == w.board || Writes(w, x))
    ensures Fresh(x)
  {
    hide BoardToken; hide Readable; hide AgentItems;
  }

  lemma WriteFresh(w: World, x: World, p: Pid)
    requires SoloInv(w) && Fresh(w) && Writing(w, x, p)
    ensures Fresh(x)
  {
    hide BoardToken; hide Readable; hide AgentItems; hide DiskIsSound; hide BoardIsSafe; hide PhaseFits;
  }

  /** Only the snapshot puts a paste between reading and replacing, and what it read is on the board. */
  lemma TidyFresh(w: World, x: World, p: Pid)
    requires SoloInv(w) && Fresh(w) && Tidying(w, x, p) && (Launch(w, x, p) ==> w.helpers == map[])
    ensures Fresh(x)
  {
    hide BoardToken; hide Readable; hide DiskIsSound; hide BoardIsSafe; hide PhaseFits;
    if (exists t: Token :: Snap(w, x, p, t)) || Persist(w, x, p) {
    } else {
      assert x.lost == w.lost;
      assert forall q :: q in x.helpers ==> q == p && !x.helpers[q].Snapped? && !x.helpers[q].Saved?;
    }
  }

  /** So without such a copy everything comes back. */
  lemma {:induction false} UnhurriedCopiesComeBack(run: seq<World>, n: nat)
    requires SoloRun(run) && n < |run| && Unhurried(run)
    ensures Fresh(run[n])
    ensures forall p :: p in run[n].helpers && run[n].helpers[p].Ready? ==>
              BoardToken(run[n].board) == None && Readable(run[n].board) == Readable(run[n].person)
  {
    hide BoardToken; hide Readable; hide SoloStep; hide SoloInv; hide Hurried; hide Writes; hide Fresh;
    if n > 0 {
      UnhurriedCopiesComeBack(run, n - 1);
      SoloRunKeeps(run, n - 1);
      assert SoloStep(run[n - 1], run[n - 1 + 1]);
      FreshStep(run[n - 1], run[n]);
    } else {
      StartIsFresh(run[0]);
    }
    forall p | p in run[n].helpers && run[n].helpers[p].Ready?
      ensures BoardToken(run[n].board) == None && Readable(run[n].board) == Readable(run[n].person)
    {
      ClipboardComesBack(run, n, p);
      assert !run[n].lost by { FreshIsKept(run[n]); }
    }
  }

  lemma StartIsFresh(w: World)
    requires Start(w)
    ensures Fresh(w)
  {
  }

  lemma FreshIsKept(w: World)
    requires Fresh(w)
    ensures !w.lost
  {
  }

  lemma TidyingSteps(w: World, x: World, p: Pid)
    requires Tidying(w, x, p) && (Launch(w, x, p) ==> w.helpers == map[])
    ensures SoloStep(w, x)
  {
    hide Tidying;
  }

  lemma CopySteps(w: World, x: World, items: Items)
    requires Copy(w, x, items)
    ensures SoloStep(w, x)
  {
    hide Copy; hide Tidying;
  }

  /** A helper launches on an empty disk and reads the clipboard. */
  lemma LaunchAndSnap(before: Items, save: Save) returns (run: seq<World>)
    requires BoardToken(before) == None && save == Save(1, 7, Readable(before))
    ensures |run| == 4 && SoloRun(run)
    ensures run[3] == World(before, map[], map[1 := Snapped(save)], {7}, before, false)
  {
    hide BoardToken; hide Readable; hide SoloStep;
    var w0 := World(before, map[], map[], {}, before, false);
    var w1 := w0.(helpers := map[1 := Recovering({})]);
    var w2 := w0.(helpers := map[1 := Ready]);
    var w3 := w0.(used := {7}, helpers := map[1 := Snapped(save)]);
    assert w0.disk.Keys == {} && w0.helpers[1 := Recovering({})] == w1.helpers;
    assert Launch(w0, w1, 1) && Recovered(w1, w2, 1) && Snap(w2, w3, 1, 7);
    TidyingSteps(w0, w1, 1);
    TidyingSteps(w1, w2, 1);
    TidyingSteps(w2, w3, 1);
    run := [w0, w1, w2, w3];
  }

  /** The rest of a paste, up to the point where nothing is pending. */
  lemma SaveAndWrite(w: World, save: Save, plain: nat) returns (run: seq<World>)
    requires save.owner == 1 && w.disk == map[] && w.helpers == map[1 := Snapped(save)]
    ensures |run| == 6 && run[0] == w && forall i :: 0 <= i < 5 ==> SoloStep(run[i], run[i + 1])
    ensures run[5].helpers == map[1 := Ready] && run[5].person == w.person
    ensures run[5].lost == (w.lost || save.items != Readable(w.board))
  {
    hide BoardToken; hide Readable; hide AgentItems; hide SoloStep;
    var w1, w2 := SaveSteps(w, save, plain);
    var w3, w4, w5 := BackSteps(w2, save);
    run := [w, w1, w2, w3, w4, w5];
  }

  lemma SaveSteps(w: World, save: Save, plain: nat) returns (w1: World, w2: World)
    requires w.disk == map[] && w.helpers == map[1 := Snapped(save)]
    ensures SoloStep(w, w1) && SoloStep(w1, w2)
    ensures w2 == w.(board := AgentItems(plain, None, save.token), disk := map[save.token := save],
                     helpers := map[1 := Wrote(save)], lost := w.lost || save.items != Readable(w.board))
  {
    hide BoardToken; hide Readable; hide AgentItems; hide SoloStep;
    w1 := w.(disk := map[save.token := save], helpers := map[1 := Saved(save)]);
    w2 := w1.(board := AgentItems(plain, None, save.token), helpers := map[1 := Wrote(save)],
              lost := w.lost || save.items != Readable(w.board));
    assert Persist(w, w1, 1);
    TidyingSteps(w, w1, 1);
    assert WriteAgent(w1, w2, 1, plain, None);
    WritingSteps(w1, w2, 1, plain, None);
  }

  lemma BackSteps(w: World, save: Save) returns (w1: World, w2: World, w3: World)
    requires w.helpers == map[1 := Wrote(save)] && w.disk == map[save.token := save]
    ensures SoloStep(w, w1) && SoloStep(w1, w2) && SoloStep(w2, w3)
    ensures w3.helpers == map[1 := Ready] && w3.person == w.person && w3.lost == w.lost
  {
    hide BoardToken; hide Readable; hide SoloStep; hide Restored;
    w1 := w.(board := Restored(w.board, save), helpers := map[1 := Checked(save)]);
    w2 := w1.(disk := map[], helpers := map[1 := Removed(save)]);
    w3 := w2.(helpers := map[1 := Ready]);
    assert CheckBack(w, w1, 1);
    TidyingSteps(w, w1, 1);
    assert RemoveFile(w1, w2, 1);
    TidyingSteps(w1, w2, 1);
    assert Finish(w2, w3, 1);
    TidyingSteps(w2, w3, 1);
  }

  lemma WritingSteps(w: World, x: World, p: Pid, plain: nat, html: Option<nat>)
    requires WriteAgent(w, x, p, plain, html)
    ensures SoloStep(w, x)
  {
    hide Tidying;
    assert Writing(w, x, p) && !Launch(w, x, p);
  }

  /** The run in which the condition fails, for any two contents that differ: the person copies between
      the snapshot and the agent's write, and the paste ends with the older content on the board. */
  lemma HurriedCopyIsLost(before: Items, copied: Items, plain: nat) returns (run: seq<World>)
    requires BoardToken(before) == None && BoardToken(copied) == None && Readable(before) != Readable(copied)
    ensures |run| == 10 && SoloRun(run)
    ensures run[9].helpers == map[1 := Ready] && run[9].person == copied && run[9].lost
    ensures Readable(run[9].board) != Readable(run[9].person)
  {
    hide BoardToken; hide Readable; hide SoloStep;
    var save := Save(1, 7, Readable(before));
    var start := LaunchAndSnap(before, save);
    var w := start[3].(board := copied, person := copied, lost := false);
    CopySteps(start[3], w, copied);
    var rest := SaveAndWrite(w, save, plain);
    run := start + rest;
    forall i | 0 <= i < |run| - 1 ensures SoloStep(run[i], run[i + 1]) {
      if i > 3 { assert run[i] == rest[i - 4] && run[i + 1] == rest[i - 4 + 1]; }
    }
    ClipboardComesBack(run, 9, 1);
  }

  // ----- The calls of one helper -----

  /** The general pasteboard, the directory of saves and the save of a paste in progress. */
  class Pasteboard {
    var board: Items
    var disk: map<Token, Save>
    var pending: Option<Save>

    constructor (board: Items, disk: map<Token, Save>)
      ensures this.board == board && this.disk == disk && pending == None
    {
      this.board, this.disk, this.pending := board, disk, None;
    }

    method RestorePending()
      modifies this
      ensures pending == None
      ensures old(pending).None? ==> board == old(board) && disk == old(disk)
      ensures old(pending).Some? ==>
                board == Restored(old(board), old(pending).value) && disk == old(disk) - {old(pending).value.token}
    {
      if pending.Some? {
        var save := pending.value;
        if ShouldRestore(save, BoardToken(board), true, true) { board := save.items; }
        disk := disk - {save.token};
        pending := None;
      }
    }

    /** Looks at the leftovers in the order the directory lists them. */
    method RecoverLeftovers(files: seq<Token>, me: Pid, alive: set<Pid>)
      modifies this`board, this`disk
      ensures board == RecoveredBoard(files, old(disk), old(board), me, alive)
      ensures disk == map t | t in old(disk) && (t !in files || LivesOn(old(disk)[t], me, alive)) :: old(disk)[t]
    {
      hide BoardToken;
      for i := 0 to |files|
        invariant RecoveredBoard(files, old(disk), old(board), me, alive)
                  == RecoveredBoard(files[i..], disk, board, me, alive)
        invariant disk == map t | t in old(disk)
                  && (t !in files[..i] || LivesOn(old(disk)[t], me, alive)) :: old(disk)[t]
      {
        var file := files[i];
        assert files[i..][0] == file && files[i..][1..] == files[i + 1..] && files[..i + 1] == files[..i] + [file];
        if file in disk {
          var save := disk[file];
          var ownerAlive := save.owner != me && save.owner in alive;
          if !ownerAlive {
            if ShouldRestore(save, BoardToken(board), false, false) { board := save.items; }
            disk := disk - {file};
          }
        }
      }
      assert files[|files|..] == [] && files[..|files|] == files;
    }

    /** One whole paste that nothing stops. `hurried` is what the person copied between the snapshot and
        the agent's write, and `during` what they copied after it: the first is lost, the second wins. */
    method Paste(me: Pid, token: Token, plain: nat, html: Option<nat>, hurried: Option<Items>, during: Option<Items>)
      returns (restored: bool)
      requires token !in disk && (during.Some? ==> BoardToken(during.value) != Some(token))
      modifies this
      ensures board == if during.Some? then during.value else Readable(old(board))
      ensures during.None? && AllReadable(old(board)) ==> board == old(board)
      ensures disk == old(disk) && pending == None && restored == during.None?
    {
      hide BoardToken; hide Readable; hide AgentItems; hide AllReadable;
      var save := Save(me, token, Readable(board));
      ReadableIs(board);
      if hurried.Some? { board := hurried.value; }
      disk := disk[token := save];
      pending := Some(save);
      board := AgentItems(plain, html, token);
      AgentToken(plain, html, token);
      if during.Some? { board := during.value; }
      restored := BoardToken(board) == Some(save.token);
      if restored { board := save.items; }
      disk := disk - {token};
      assert disk == old(disk);
      pending := None;
    }
  }

  // ----- Recovering several leftovers -----

  /** A save that is left alone because the helper that wrote it is still there. */
  predicate LivesOn(save: Save, me: Pid, alive: set<Pid>) {
    save.owner != me && save.owner in alive
  }

  /** The board after looking at leftovers in this order. */
  function RecoveredBoard(files: seq<Token>, disk: map<Token, Save>, board: Items, me: Pid, alive: set<Pid>): Items {
    if files == [] then board
    else if files[0] !in disk || LivesOn(disk[files[0]], me, alive) then
      RecoveredBoard(files[1..], disk, board, me, alive)
    else
      RecoveredBoard(files[1..], disk - {files[0]}, Restored(board, disk[files[0]]), me, alive)
  }

  /** When every save holds the person's own content, the order of the files does not matter: the one
      whose token is on the board is put back. */
  lemma {:induction false} OrderDoesNotMatter(files: seq<Token>, disk: map<Token, Save>, board: Items, me: Pid,
                                              alive: set<Pid>)
    requires forall t :: t in disk ==> disk[t].token == t && BoardToken(disk[t].items) == None
    ensures var token := BoardToken(board);
            RecoveredBoard(files, disk, board, me, alive) ==
            if token.Some? && token.value in files && token.value in disk && !LivesOn(disk[token.value], me, alive)
            then disk[token.value].items else board
  {
    hide BoardToken;
    if files != [] {
      var f := files[0];
      assert files == [f] + files[1..];
      if f !in disk || LivesOn(disk[f], me, alive) {
        OrderDoesNotMatter(files[1..], disk, board, me, alive);
      } else {
        OrderDoesNotMatter(files[1..], disk - {f}, Restored(board, disk[f]), me, alive);
      }
    }
  }

  /** A save may hold another helper's content, if neither could take the lock. When both helpers are
      dead, the person's clipboard comes back if and only if the save on top is looked at first. */
  lemma NestedSavesNeedTheirOrder(inner: Save, outer: Save, plain: nat, html: Option<nat>, me: Pid, alive: set<Pid>)
    requires inner.token != outer.token && !LivesOn(inner, me, alive) && !LivesOn(outer, me, alive)
    requires BoardToken(inner.items) == None && BoardToken(outer.items) == Some(inner.token)
    ensures var disk := map[inner.token := inner, outer.token := outer];
            var board := AgentItems(plain, html, outer.token);
            && RecoveredBoard([outer.token, inner.token], disk, board, me, alive) == inner.items
            && RecoveredBoard([inner.token, outer.token], disk, board, me, alive) == outer.items != inner.items
  {
    hide BoardToken; hide AgentItems;
    var disk := map[inner.token := inner, outer.token := outer];
    var board := AgentItems(plain, html, outer.token);
    AgentToken(plain, html, outer.token);
    assert [outer.token, inner.token][1..] == [inner.token] && [inner.token, outer.token][1..] == [outer.token];
    assert [inner.token][1..] == [] && [outer.token][1..] == [];
    assert (disk - {outer.token})[inner.token] == inner && (disk - {inner.token})[outer.token] == outer;
    assert RecoveredBoard([inner.token], disk - {outer.token}, outer.items, me, alive)
           == RecoveredBoard([], disk - {outer.token} - {inner.token}, inner.items, me, alive);
    assert RecoveredBoard([outer.token], disk - {inner.token}, board, me, alive)
           == RecoveredBoard([], disk - {inner.token} - {outer.token}, outer.items, me, alive);
  }
}
