// The bookkeeping fields of windows, workspaces and monitors. Objects refer to each other
// by id where the compositor holds pointers.
module DesktopState {
  import opened Common

  type WinId = int
  type WsId = int
  type MonId = int

  // The fields a fullscreen request writes.
  datatype FsState = FsState(
    internal: int, client: int, pinned: bool, pinFs: bool, createdOver: bool)

  // The fields nothing in this model writes.
  datatype Traits = Traits(mapped: bool, hidden: bool, floating: bool, fading: bool, sync: bool)

  datatype WinState = WinState(
    ws: WsId, mon: Option<MonId>, pos: Vec, size: Vec, traits: Traits, fs: FsState)
  {
    predicate IsFullscreen() {
      fs.internal != 0
    }
  }

  datatype WsState = WsState(
    special: bool, mon: Option<MonId>, hasFs: bool, mode: int, visible: bool)

  datatype MonState = MonState(active: Option<WsId>, pos: Vec, size: Vec)

  // The desktop at one moment: `unsafe` is m_unsafeState, `allowPin` is
  // binds:allow_pin_fullscreen, `last` is m_lastMonitor. The tables are type parameters so
  // that proofs do not compare the sizes of desktops and of their entries.
  datatype DeskOf<+List, +Wins, +Spaces, +Mons> = Desk(
    windows: List, win: Wins, workspaces: List, ws: Spaces, mon: Mons,
    last: Option<MonId>, unsafe: bool, allowPin: bool)

  type Desk = DeskOf<seq<int>, map<WinId, WinState>, map<WsId, WsState>, map<MonId, MonState>>

  ghost predicate Known<K, V>(link: Option<K>, table: map<K, V>) {
    link.Some? ==> link.value in table
  }

  // The list names exactly the keys of the table.
  ghost predicate Lists<V>(list: seq<int>, table: map<int, V>) {
    && (forall i :: 0 <= i < |list| ==> list[i] in table)
    && (forall k :: k in table ==> k in list)
  }

  // The lists name each object, and every link leads to a live object.
  ghost predicate Wf(d: Desk) {
    && Lists(d.windows, d.win) && Lists(d.workspaces, d.ws)
    && (forall w :: w in d.win ==> d.win[w].ws in d.ws && Known(d.win[w].mon, d.mon))
    && (forall x :: x in d.ws ==> Known(d.ws[x].mon, d.mon))
    && (forall m :: m in d.mon ==> Known(d.mon[m].active, d.ws))
    && Known(d.last, d.mon)
  }
}
