/** The storefront as a state machine: every user action of app.tsx that
    changes the login, the display mode, the store document or the cart is
    one command, and a session is what a run of commands leaves behind.
    Purely visual state (the open view, the search text, the selected tab,
    open modals) lives outside the session; logging out is left out. */
module Commands {
  import opened Wrappers
  import opened Types
  import opened Store
  import opened Sync

  datatype Command =
    | Login(code: string)
    | AdjustStock(id: string, delta: int)
    | AddItem(id: string)
    | DecrementItem(id: string)
    | IncrementItem(id: string)
    | RemoveItem(id: string)
    | SyncSheet(fetch: string -> Option<string>, ids: nat -> string, clock: nat -> int)
    | SetMode(mode: DisplayMode)
    | EditSheet(text: string)
    | EditWhatsApp(text: string)

  /** The stock/catalogue toggle. Its buttons are only rendered for an
      administrator, so a viewer cannot reach it. */
  function ToggleMode(s: Session, m: DisplayMode): (r: Session)
    ensures s.role == Admin ==> r == s.(mode := m)
    ensures s.role == Viewer ==> r == s
  {
    if s.role == Admin then s.(mode := m) else s
  }

  /** The two inputs of the settings view, which only an administrator can
      open. They write the document directly, without `saveData`: the new
      value is kept for the session and reaches storage with the next save. */
  function EditSettings(s: Session, sheetId: Option<string>, whatsapp: Option<string>): (r: Session)
    ensures s.role == Viewer ==> r == s
    ensures s.role == Admin ==>
              && r == s.(data := r.data)
              && r.data == s.data.(sheetId := sheetId, whatsappNumber := whatsapp)
  {
    if s.role == Admin then s.(data := s.data.(sheetId := sheetId, whatsappNumber := whatsapp)) else s
  }

  /** One command. Only a login moves the store code or role; only a login
      or the toggle moves the display mode; only the stock buttons, a sync
      and the settings inputs touch the store document, and the settings
      inputs touch nothing but the two settings; only the cart buttons touch
      the cart. */
  function Step(s: Session, c: Command): (r: Session)
    ensures !c.Login? ==> r.storeCode == s.storeCode && r.role == s.role
    ensures !(c.Login? || c.SetMode?) ==> r.mode == s.mode
    ensures !(c.AddItem? || c.DecrementItem? || c.IncrementItem? || c.RemoveItem?) ==> r.cart == s.cart
    ensures !(c.AdjustStock? || c.SyncSheet? || c.EditSheet? || c.EditWhatsApp?) ==> r.data == s.data
    ensures c.EditSheet? || c.EditWhatsApp? ==>
              r.data == s.data.(sheetId := r.data.sheetId, whatsappNumber := r.data.whatsappNumber)
    ensures CartWellFormed(s.cart) ==> CartWellFormed(r.cart)
    ensures s.role == Viewer && !c.Login? ==> r.data == s.data && r.mode == s.mode
  {
    match c
    case Login(code) => HandleLogin(s, code)
    case AdjustStock(id, delta) => UpdateQuantity(s, id, delta)
    case AddItem(id) => s.(cart := AddToCart(s.cart, id))
    case DecrementItem(id) => s.(cart := Decrement(s.cart, id))
    case IncrementItem(id) => s.(cart := Increment(s.cart, id))
    case RemoveItem(id) =>
      if CartWellFormed(s.cart) then RemoveWellFormed(s.cart, id); s.(cart := Remove(s.cart, id))
      else s.(cart := Remove(s.cart, id))
    case SyncSheet(fetch, ids, clock) => SyncWithSheets(s, fetch, ids, clock).session
    case SetMode(m) => ToggleMode(s, m)
    case EditSheet(text) => EditSettings(s, Some(text), s.data.whatsappNumber)
    case EditWhatsApp(text) => EditSettings(s, s.data.sheetId, Some(text))
  }

  /** What an administrator types as the sheet link is what the next sync
      reads. */
  lemma EditSheetFeedsSync(s: Session, text: string)
    requires s.role == Admin
    ensures SheetSetting(Step(s, EditSheet(text)).data) == text
  {
  }

  function Run(s: Session, cmds: seq<Command>): Session
    decreases |cmds|
  {
    if |cmds| == 0 then s else Run(Step(s, cmds[0]), cmds[1..])
  }

  /** Whatever the user clicks, the cart keeps one entry per product and at
      least one unit in each. */
  lemma {:induction false} CartStaysWellFormed(s: Session, cmds: seq<Command>)
    requires CartWellFormed(s.cart)
    ensures CartWellFormed(Run(s, cmds).cart)
    decreases |cmds|
  {
    if |cmds| > 0 {
      CartStaysWellFormed(Step(s, cmds[0]), cmds[1..]);
    }
  }

  /** A viewer who does not log in again never changes the store document:
      every write goes through `saveData`, which drops it, or through the
      settings view, which a viewer cannot open. */
  lemma {:induction false} ViewerNeverWrites(s: Session, cmds: seq<Command>)
    requires s.role == Viewer
    requires forall k :: 0 <= k < |cmds| ==> !cmds[k].Login?
    ensures Run(s, cmds).data == s.data
    decreases |cmds|
  {
    if |cmds| > 0 {
      assert forall k :: 0 <= k < |cmds[1..]| ==> cmds[1..][k] == cmds[k + 1];
      ViewerNeverWrites(Step(s, cmds[0]), cmds[1..]);
    }
  }

  /** An administrator's stock buttons never make a count negative. */
  lemma {:induction false} StockButtonsKeepCountsNonNegative(s: Session, cmds: seq<Command>)
    requires NonNegativeStock(s.data.products)
    requires forall k :: 0 <= k < |cmds| ==> !cmds[k].SyncSheet?
    ensures NonNegativeStock(Run(s, cmds).data.products)
    decreases |cmds|
  {
    if |cmds| > 0 {
      assert forall k :: 0 <= k < |cmds[1..]| ==> cmds[1..][k] == cmds[k + 1];
      StockButtonsKeepCountsNonNegative(Step(s, cmds[0]), cmds[1..]);
    }
  }
}
