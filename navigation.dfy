/**
 * The `will-navigate` guard of the desktop wallet's main window: the window
 * may only navigate within the wallet's own URL, and a blocked link is
 * opened in the system browser when its host is one of four IOTA domains.
 *
 * The host of the target URL is a parameter (`None` where the URL has no
 * host, so that reading it throws and nothing is opened).
 */
module Navigation {
  import opened Wrappers
  import opened JsStrings

  /** The URL the wallet window loads, in development and in a build. */
  function AppUrl(devMode: bool): string
  {
    if devMode then "http://localhost:1074/" else "iota://dist/index.html"
  }

  /** The domains a blocked link may be opened on. */
  const ExternalWhitelist: seq<string> := ["iota.org", "docs.iota.works", "trinity.iota.org", "docs.bugsnag.com"]

  /** The whitelisted domains and their `www.` forms: the hosts meant to be opened. */
  const AllowedHosts: set<string> :=
    (set w | w in ExternalWhitelist) + (set w | w in ExternalWhitelist :: "www." + w)

  /** What happens to a navigation: it goes ahead, or it is prevented and perhaps opened externally. */
  datatype Decision = Proceed | Prevent(openExternally: bool)

  /** As written: `host.replace('www.', '')` removes the first `www.` wherever it stands. */
  function StripWwwAsWritten(host: string): string
  {
    ReplaceFirst(host, "www.", "")
  }

  /** As intended: a leading `www.` is dropped. */
  function StripWww(host: string): (h: string)
    ensures IsPrefix("www.", host) ==> "www." + h == host
    ensures !IsPrefix("www.", host) ==> h == host
  {
    if IsPrefix("www.", host) then host[4..] else host
  }

  predicate OpensExternallyAsWritten(host: Option<string>)
  {
    host.Some? && StripWwwAsWritten(host.value) in ExternalWhitelist
  }

  predicate OpensExternally(host: Option<string>)
  {
    host.Some? && StripWww(host.value) in ExternalWhitelist
  }

  /** The guard as written. */
  function WillNavigateAsWritten(appUrl: string, targetUrl: string, host: Option<string>): (d: Decision)
    ensures d == Proceed <==> IsPrefix(targetUrl, appUrl)
    ensures d.Prevent? ==> (d.openExternally <==> OpensExternallyAsWritten(host))
  {
    IndexOfZeroIsPrefix(appUrl, targetUrl);
    if IndexOf(appUrl, targetUrl) == 0 then Proceed else Prevent(OpensExternallyAsWritten(host))
  }

  /** The guard with a leading `www.` dropped: navigation stays inside the wallet's URL, and a
      blocked link is opened exactly when its host is a whitelisted domain or its `www.` form. */
  function WillNavigate(appUrl: string, targetUrl: string, host: Option<string>): (d: Decision)
    ensures d == Proceed <==> IsPrefix(targetUrl, appUrl)
    ensures d.Prevent? ==> (d.openExternally <==> host.Some? && host.value in AllowedHosts)
  {
    IndexOfZeroIsPrefix(appUrl, targetUrl);
    if IndexOf(appUrl, targetUrl) == 0 then Proceed
    else match host
      case None => Prevent(false)
      case Some(h) => OpensExactlyAllowedHosts(h); Prevent(OpensExternally(host))
  }

  /** Dropping a leading `www.` and looking the rest up in the whitelist accepts exactly the allowed hosts. */
  lemma OpensExactlyAllowedHosts(host: string)
    ensures StripWww(host) in ExternalWhitelist <==> host in AllowedHosts
  {
    if StripWww(host) in ExternalWhitelist {
      StrippedHostAllowed(host);
    }
    if host in AllowedHosts {
      WhitelistedHostStripped(host);
    }
  }

  /** A host whose `www.`-stripped form is whitelisted is an allowed host. */
  lemma StrippedHostAllowed(host: string)
    requires StripWww(host) in ExternalWhitelist
    ensures host in AllowedHosts
  {
    if IsPrefix("www.", host) {
      assert host == "www." + StripWww(host);
    }
  }

  /** Every allowed host, with a leading `www.` dropped, is whitelisted: no whitelisted
      domain itself starts with `www.`. */
  lemma WhitelistedHostStripped(host: string)
    requires host in AllowedHosts
    ensures StripWww(host) in ExternalWhitelist
  {
    if host in ExternalWhitelist {
      assert host[0] != 'w';
      assert !IsPrefix("www.", host);
    } else {
      var w :| w in ExternalWhitelist && host == "www." + w;
      assert IsPrefix("www.", host);
      assert host[4..] == w;
    }
  }

  /** `sub` does not occur at a position whose character differs from its first one. */
  lemma NotAt(s: string, sub: string, i: nat)
    requires sub != [] && i < |s| && s[i] != sub[0]
    ensures !OccursAt(s, sub, i)
  {
    if i + |sub| <= |s| {
      assert s[i..i + |sub|][0] == s[i];
    }
  }

  /** The wallet's own URL, and every prefix of it, is never blocked. */
  lemma OwnUrlProceeds(devMode: bool, target: string, host: Option<string>)
    requires IsPrefix(target, AppUrl(devMode))
    ensures WillNavigate(AppUrl(devMode), target, host) == Proceed
  {
  }

  /** A target that extends the wallet's URL is not a prefix of it, so it is blocked. */
  lemma LongerUrlBlocked(appUrl: string, suffix: string, host: Option<string>)
    requires suffix != []
    ensures WillNavigate(appUrl, appUrl + suffix, host).Prevent?
  {
  }

  /** The host `iota.www.org` is none of the whitelisted domains, yet the guard as written
      opens it: removing the inner `www.` leaves `iota.org`. */
  lemma InnerWwwOpenedAsWritten()
    ensures OpensExternallyAsWritten(Some("iota.www.org"))
    ensures "iota.www.org" !in AllowedHosts
    ensures !OpensExternally(Some("iota.www.org"))
  {
    var h := "iota.www.org";
    InnerWwwFirstAt5();
    assert StripWwwAsWritten(h) == h[..5] + h[9..];
    assert h[..5] + h[9..] == "iota.org";
    OpensExactlyAllowedHosts(h);
  }

  /** The first `www.` in `iota.www.org` starts at position 5. */
  lemma InnerWwwFirstAt5()
    ensures IndexOf("iota.www.org", "www.") == 5
  {
    var h := "iota.www.org";
    assert h[5..9] == "www.";
    assert OccursAt(h, "www.", 5);
    NotAt(h, "www.", 0);
    NotAt(h, "www.", 1);
    NotAt(h, "www.", 2);
    NotAt(h, "www.", 3);
    NotAt(h, "www.", 4);
  }

  /** Both versions agree on every host that starts with `www.` or holds no `www.` at all. */
  lemma VersionsAgreeOnOrdinaryHosts(host: string)
    requires IsPrefix("www.", host) || IndexOf(host, "www.") == -1
    ensures StripWwwAsWritten(host) == StripWww(host)
  {
    if IsPrefix("www.", host) {
      IndexOfZeroIsPrefix(host, "www.");
    }
  }
}
