/**
 * The two pieces of module-level state the desktop main process keeps: the
 * macOS tray icon (`tray`) and the deep link waiting for the wallet window
 * (`deeplinkingUrl`).
 */
module DesktopState {
  import opened Wrappers

  // ---------------------------------------------------------------- tray

  /** What `setupTray` does to the tray. */
  datatype TrayStep = DestroyTray | LeaveTray | CreateTray

  /**
   * `setupTray(enabled)`: `enabled` is `None` when the setting is undefined.
   * Disabling destroys a live tray; enabling with a live tray keeps it;
   * anything else creates a new tray.
   */
  function TrayDecision(enabled: Option<bool>, live: bool): (step: TrayStep)
    ensures step == DestroyTray <==> enabled == Some(false) && live
    ensures step == CreateTray <==> enabled != Some(false) && !(enabled == Some(true) && live)
  {
    if enabled == Some(false) then (if live then DestroyTray else LeaveTray)
    else if enabled == Some(true) && live then LeaveTray
    else CreateTray
  }

  /** Whether a tray is live after a step taken with a tray live (`live`) or not. */
  function LiveAfter(step: TrayStep, live: bool): bool
  {
    match step
    case DestroyTray => false
    case LeaveTray => live
    case CreateTray => true
  }

  /** After `setupTray(enabled)` a tray is live exactly when the tray is not disabled. */
  lemma TrayFollowsSetting(enabled: Option<bool>, live: bool)
    ensures LiveAfter(TrayDecision(enabled, live), live) <==> enabled != Some(false)
  {
  }

  /** Enabling twice creates one tray: the second call finds it live and keeps it. */
  lemma EnableTwiceCreatesOnce(live: bool)
    ensures TrayDecision(Some(true), LiveAfter(TrayDecision(Some(true), live), live)) == LeaveTray
  {
  }

  /** A native tray icon. */
  class TrayIcon {
    var destroyed: bool

    constructor()
      ensures !destroyed
    {
      destroyed := false;
    }

    method Destroy()
      modifies this
      ensures destroyed
    {
      destroyed := true;
    }
  }

  /** The main process's `tray` variable. */
  class TrayHolder {
    var tray: TrayIcon?

    constructor()
      ensures tray == null
    {
      tray := null;
    }

    /** `tray && !tray.isDestroyed()` */
    predicate Live()
      reads this, tray
    {
      tray != null && !tray.destroyed
    }

    method SetupTray(enabled: Option<bool>)
      modifies this, tray
      ensures Live() <==> enabled != Some(false)
      ensures TrayDecision(enabled, old(Live())) == CreateTray ==> fresh(tray)
      ensures TrayDecision(enabled, old(Live())) != CreateTray ==> tray == old(tray)
      ensures TrayDecision(enabled, old(Live())) == LeaveTray && tray != null ==> tray.destroyed == old(tray.destroyed)
      ensures old(tray) != null && TrayDecision(enabled, old(Live())) != DestroyTray ==>
                old(tray).destroyed == old(tray.destroyed)
    {
      if enabled == Some(false) {
        if tray != null && !tray.destroyed {
          tray.Destroy();
        }
        return;
      }
      if enabled == Some(true) && tray != null && !tray.destroyed {
        return;
      }
      tray := new TrayIcon();
    }
  }

  // ----------------------------------------------------------- deep links

  /**
   * `deeplinkingUrl` together with whether the wallet window exists and the
   * `url-params` messages sent to it, in order.
   */
  class DeepLinkRelay {
    var deeplinkingUrl: Option<string>
    var mainWindowOpen: bool
    var sent: seq<string>

    constructor(mainWindowOpen: bool)
      ensures deeplinkingUrl == None && sent == []
      ensures this.mainWindowOpen == mainWindowOpen
    {
      deeplinkingUrl := None;
      this.mainWindowOpen := mainWindowOpen;
      sent := [];
    }

    /** `if (deeplinkingUrl)`: a stored link other than the empty string. */
    predicate Pending()
      reads this
    {
      deeplinkingUrl.Some? && deeplinkingUrl.value != ""
    }

    /** The wallet window is created or closed. */
    method SetMainWindow(open: bool)
      modifies this
      ensures mainWindowOpen == open
      ensures deeplinkingUrl == old(deeplinkingUrl) && sent == old(sent)
    {
      mainWindowOpen := open;
    }

    /** `open-url`: the link is stored, and sent at once when the window exists. */
    method OpenUrl(url: string)
      modifies this
      ensures deeplinkingUrl == Some(url)
      ensures mainWindowOpen == old(mainWindowOpen)
      ensures sent == old(sent) + (if mainWindowOpen then [url] else [])
    {
      deeplinkingUrl := Some(url);
      if mainWindowOpen {
        sent := sent + [url];
      }
    }

    /**
     * `request.deepLink`: a pending link is sent and cleared. Without a
     * window the send throws before the link is cleared, and nothing changes.
     */
    method RequestDeepLink()
      modifies this
      ensures mainWindowOpen == old(mainWindowOpen)
      ensures old(Pending()) && mainWindowOpen ==>
                sent == old(sent) + [old(deeplinkingUrl).value] && deeplinkingUrl == None
      ensures !(old(Pending()) && mainWindowOpen) ==>
                sent == old(sent) && deeplinkingUrl == old(deeplinkingUrl)
      ensures mainWindowOpen ==> !Pending()
    {
      if Pending() && mainWindowOpen {
        sent := sent + [deeplinkingUrl.value];
        deeplinkingUrl := None;
      }
    }
  }

  /** A link that arrives before the window exists is delivered once on request, and a
      second request sends nothing more. */
  method LinkBeforeWindow(url: string) returns (relay: DeepLinkRelay)
    requires url != ""
    ensures relay.sent == [url]
    ensures relay.deeplinkingUrl == None
  {
    relay := new DeepLinkRelay(false);
    relay.OpenUrl(url);
    relay.SetMainWindow(true);
    relay.RequestDeepLink();
    relay.RequestDeepLink();
  }

  /** A link that arrives while the window exists is sent at once and stays stored, so the
      next request sends it a second time. */
  method LinkWithWindowSentTwice(url: string) returns (relay: DeepLinkRelay)
    requires url != ""
    ensures relay.sent == [url, url]
    ensures relay.deeplinkingUrl == None
  {
    relay := new DeepLinkRelay(true);
    relay.OpenUrl(url);
    relay.RequestDeepLink();
  }

  /** An empty link is stored but never forwarded on request. */
  method EmptyLinkNeverForwarded() returns (relay: DeepLinkRelay)
    ensures relay.sent == []
  {
    relay := new DeepLinkRelay(false);
    relay.OpenUrl("");
    relay.SetMainWindow(true);
    relay.RequestDeepLink();
  }

  /** A tray enabled, enabled again and then disabled: one tray is created, and it ends destroyed. */
  method EnableEnableDisable() returns (holder: TrayHolder, first: TrayIcon)
    ensures holder.tray == first && first.destroyed
  {
    holder := new TrayHolder();
    holder.SetupTray(Some(true));
    first := holder.tray;
    holder.SetupTray(Some(true));
    holder.SetupTray(Some(false));
  }

  /** An undefined tray setting after an enabled one creates a second tray and leaves the
      first one live, not destroyed. */
  method UndefinedSettingReplacesLiveTray() returns (holder: TrayHolder, first: TrayIcon)
    ensures holder.tray != first && !first.destroyed
    ensures holder.Live()
  {
    holder := new TrayHolder();
    holder.SetupTray(Some(true));
    first := holder.tray;
    holder.SetupTray(None);
  }
}
