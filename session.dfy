/**
 * The rental session: the single `currentConnection`, the two scanner
 * surfaces (the mobile scan drawer and the desktop scan modal) with their
 * `isScanning` / `isScanningDesktop` flags, and which mobile drawer and nav
 * item are active.
 *
 * Foreign calls become inputs: `JSON.parse` is an `Option<Json>` (`None`
 * when it throws), `confirm` a `bool`, and the outcome of a scanner's
 * `stop()` promise a `bool` (`true` when it resolves). Each event is taken
 * to run to completion, with the promise settled inside it.
 */
module Session {
  import opened Wrappers

  /** The mobile drawers, each with its own nav item. */
  datatype Drawer = FindDrawer | ScanDrawer | StatusDrawer

  /**
   * A JavaScript value as `JSON.parse` may return it: `null`, an object
   * with `station` and `id`, or any other value (number, string, array,
   * object of another shape), kept as its text.
   */
  datatype Json = JNull | JRecord(station: string, id: string) | JOther(text: string)

  /** The connection stored when the scanned text is not usable JSON. */
  function Fallback(decodedText: string): Json {
    JRecord("Unknown", decodedText)
  }

  class RentalSession {
    /** `currentConnection`; `JNull` when no power bank is rented. */
    var connection: Json
    var isScanning: bool
    var isScanningDesktop: bool
    /** Whether `html5QrCode` / `html5QrCodeDesktop` has been created. */
    var hasMobileScanner: bool
    var hasDesktopScanner: bool
    /** Drawers and nav items carrying the `active` class. */
    var activeDrawers: set<Drawer>
    var activeNavItems: set<Drawer>
    /** Whether `#desktopScanModal` carries the `active` class. */
    var modalOpen: bool

    ghost predicate Valid()
      reads this
    {
      && (isScanning ==> hasMobileScanner)
      && (isScanningDesktop ==> hasDesktopScanner)
      && |activeDrawers| <= 1
      && activeNavItems == activeDrawers
    }

    constructor ()
      ensures Valid()
      ensures connection == JNull && !isScanning && !isScanningDesktop
      ensures !hasMobileScanner && !hasDesktopScanner
      ensures activeDrawers == {} && !modalOpen
    {
      connection := JNull;
      isScanning, isScanningDesktop := false, false;
      hasMobileScanner, hasDesktopScanner := false, false;
      activeDrawers, activeNavItems := {}, {};
      modalOpen := false;
    }

    /**
     * `startMobileScanner`: creates a scanner and sets the flag, whether or
     * not the camera then starts.
     */
    method StartMobileScanner()
      requires Valid()
      modifies this`isScanning, this`hasMobileScanner
      ensures Valid()
      ensures isScanning && hasMobileScanner
    {
      hasMobileScanner := true;
      isScanning := true;
    }

    /**
     * `stopMobileScanner`: a no-op unless a scanner exists and is scanning;
     * the flag clears only if `stop()` resolves.
     */
    method StopMobileScanner(stopResolves: bool)
      requires Valid()
      modifies this`isScanning
      ensures Valid()
      ensures !old(isScanning) ==> !isScanning
      ensures old(isScanning) ==> isScanning == !stopResolves
    {
      if hasMobileScanner && isScanning {
        if stopResolves {
          isScanning := false;
        }
      }
    }

    method StartDesktopScanner()
      requires Valid()
      modifies this`isScanningDesktop, this`hasDesktopScanner
      ensures Valid()
      ensures isScanningDesktop && hasDesktopScanner
    {
      hasDesktopScanner := true;
      isScanningDesktop := true;
    }

    method StopDesktopScanner(stopResolves: bool)
      requires Valid()
      modifies this`isScanningDesktop
      ensures Valid()
      ensures !old(isScanningDesktop) ==> !isScanningDesktop
      ensures old(isScanningDesktop) ==> isScanningDesktop == !stopResolves
    {
      if hasDesktopScanner && isScanningDesktop {
        if stopResolves {
          isScanningDesktop := false;
        }
      }
    }

    /** `closeAllDrawers`: nothing stays active; a running mobile scanner is stopped. */
    method CloseAllDrawers(stopResolves: bool)
      requires Valid()
      modifies this`activeDrawers, this`activeNavItems, this`isScanning
      ensures Valid()
      ensures activeDrawers == {} && activeNavItems == {}
      ensures isScanning == (old(isScanning) && !stopResolves)
    {
      activeDrawers := {};
      activeNavItems := {};
      if isScanning {
        StopMobileScanner(stopResolves);
      }
    }

    /**
     * `openDrawer`: closes everything, then activates drawer `d` and its nav
     * item; opening the scan drawer starts the mobile scanner.
     */
    method OpenDrawer(d: Drawer, stopResolves: bool)
      requires Valid()
      modifies this`activeDrawers, this`activeNavItems, this`isScanning, this`hasMobileScanner
      ensures Valid()
      ensures activeDrawers == {d} && activeNavItems == {d}
      ensures d == ScanDrawer ==> isScanning && hasMobileScanner
      ensures d != ScanDrawer ==>
        isScanning == (old(isScanning) && !stopResolves) && hasMobileScanner == old(hasMobileScanner)
    {
      CloseAllDrawers(stopResolves);
      activeDrawers := {d};
      activeNavItems := {d};
      if d == ScanDrawer {
        StartMobileScanner();
      }
    }

    /**
     * `handleQRScan`: a parsed value becomes the connection and the status
     * drawer opens. Text that does not parse, and the JSON `null` (reading
     * its `station` throws inside the same `try`), give the fallback
     * connection instead. The old connection is replaced either way.
     */
    method HandleQRScan(decodedText: string, parsed: Option<Json>, stopResolves: bool)
      requires Valid()
      modifies this`connection, this`activeDrawers, this`activeNavItems, this`isScanning,
               this`hasMobileScanner
      ensures Valid()
      ensures connection != JNull && hasMobileScanner == old(hasMobileScanner)
      ensures parsed.Some? && parsed.value != JNull ==>
        && connection == parsed.value
        && activeDrawers == {StatusDrawer} && activeNavItems == {StatusDrawer}
        && isScanning == (old(isScanning) && !stopResolves)
      ensures parsed.None? || parsed.value == JNull ==>
        && connection == Fallback(decodedText)
        && activeDrawers == old(activeDrawers) && activeNavItems == old(activeNavItems)
        && isScanning == old(isScanning)
    {
      if parsed.Some? && parsed.value != JNull {
        connection := parsed.value;
        CloseAllDrawers(stopResolves);
        OpenDrawer(StatusDrawer, stopResolves);
      } else {
        connection := Fallback(decodedText);
      }
    }

    /** `disconnectPowerBank`: only a confirmed return clears the connection. */
    method DisconnectPowerBank(confirmed: bool, stopResolves: bool)
      requires Valid()
      modifies this`connection, this`activeDrawers, this`activeNavItems, this`isScanning
      ensures Valid()
      ensures confirmed ==>
        && connection == JNull
        && activeDrawers == {} && activeNavItems == {}
        && isScanning == (old(isScanning) && !stopResolves)
      ensures !confirmed ==>
        && connection == old(connection)
        && activeDrawers == old(activeDrawers) && activeNavItems == old(activeNavItems)
        && isScanning == old(isScanning)
    {
      if confirmed {
        connection := JNull;
        CloseAllDrawers(stopResolves);
      }
    }

    method OpenDesktopScanModal()
      requires Valid()
      modifies this`modalOpen, this`isScanningDesktop, this`hasDesktopScanner
      ensures Valid()
      ensures modalOpen && isScanningDesktop && hasDesktopScanner
    {
      modalOpen := true;
      StartDesktopScanner();
    }

    method CloseDesktopScanModal(stopResolves: bool)
      requires Valid()
      modifies this`modalOpen, this`isScanningDesktop
      ensures Valid()
      ensures !modalOpen
      ensures isScanningDesktop == (old(isScanningDesktop) && !stopResolves)
    {
      modalOpen := false;
      StopDesktopScanner(stopResolves);
    }

    /** The mobile scanner's decode callback: stop, then handle the text. */
    method OnMobileDecoded(decodedText: string, parsed: Option<Json>, stopResolves: bool)
      requires Valid()
      modifies this`connection, this`activeDrawers, this`activeNavItems, this`isScanning,
               this`hasMobileScanner
      ensures Valid()
      ensures connection != JNull && hasMobileScanner == old(hasMobileScanner)
      ensures isScanning == (old(isScanning) && !stopResolves)
      ensures parsed.Some? && parsed.value != JNull ==>
        connection == parsed.value && activeDrawers == {StatusDrawer}
      ensures parsed.None? || parsed.value == JNull ==>
        connection == Fallback(decodedText) && activeDrawers == old(activeDrawers)
    {
      StopMobileScanner(stopResolves);
      HandleQRScan(decodedText, parsed, stopResolves);
    }

    /**
     * The desktop scanner's decode callback: stop, close the modal (which
     * stops again), then handle the text.
     */
    method OnDesktopDecoded(decodedText: string, parsed: Option<Json>, stopResolves: bool)
      requires Valid()
      modifies this`connection, this`activeDrawers, this`activeNavItems, this`isScanning,
               this`hasMobileScanner, this`isScanningDesktop, this`modalOpen
      ensures Valid()
      ensures connection != JNull && !modalOpen && hasMobileScanner == old(hasMobileScanner)
      ensures isScanningDesktop == (old(isScanningDesktop) && !stopResolves)
      ensures parsed.Some? && parsed.value != JNull ==>
        connection == parsed.value && activeDrawers == {StatusDrawer}
        && isScanning == (old(isScanning) && !stopResolves)
      ensures parsed.None? || parsed.value == JNull ==>
        connection == Fallback(decodedText) && activeDrawers == old(activeDrawers)
        && isScanning == old(isScanning)
    {
      StopDesktopScanner(stopResolves);
      CloseDesktopScanModal(stopResolves);
      HandleQRScan(decodedText, parsed, stopResolves);
    }
  }
}
