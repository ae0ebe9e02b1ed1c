/**
 * The browser side of web push: the secure-context gate for registering the
 * service worker, the permission request, and the early-exit order of
 * subscribing. The browser is an input: which APIs exist, what the permission
 * prompt and the service worker answer, whether a subscription exists, and
 * what the push backend replies. The result records the outward actions taken,
 * in order, so that "no subscription was attempted" can be stated.
 */
module PushClient {

  import opened Wrappers
  import opened Base64

  /* ---------------------------------------------------------------------- */
  /* Service-worker registration gate                                       */
  /* ---------------------------------------------------------------------- */

  datatype Location = Location(hostname: string, protocol: string)

  predicate IsLocalhost(loc: Location) {
    loc.hostname == "localhost" || loc.hostname == "127.0.0.1"
  }

  predicate IsSecure(loc: Location) {
    loc.protocol == "https:"
  }

  /** Whether `registerServiceWorker` goes on to call `register`. */
  function ShouldRegister(hasWindow: bool, hasServiceWorker: bool, loc: Location): (go: bool)
    ensures go ==> hasWindow && hasServiceWorker
    ensures go ==> IsSecure(loc) || IsLocalhost(loc)
  {
    if !hasWindow then false
    else if !hasServiceWorker then false
    else IsSecure(loc) || IsLocalhost(loc)
  }

  /** Plain http on a non-local host never registers; https always does where service workers exist. */
  lemma RegistrationGate(loc: Location)
    ensures !IsSecure(loc) && !IsLocalhost(loc) ==> !ShouldRegister(true, true, loc)
    ensures IsSecure(loc) ==> ShouldRegister(true, true, loc)
    ensures IsLocalhost(loc) ==> ShouldRegister(true, true, loc)
  {
  }

  /* ---------------------------------------------------------------------- */
  /* Permission                                                             */
  /* ---------------------------------------------------------------------- */

  datatype Permission = Default | Granted | Denied | Unsupported

  /** `requestNotificationPermission`; the prompt's answer is None when it throws. */
  function RequestPermission(hasWindow: bool, hasNotification: bool, answer: Option<Permission>): (p: Permission)
    ensures !hasWindow || !hasNotification ==> p == Unsupported
    ensures p == Granted <==> hasWindow && hasNotification && answer == Some(Granted)
  {
    if !hasWindow then Unsupported
    else if !hasNotification then Unsupported
    else answer.GetOr(Unsupported)
  }

  /* ---------------------------------------------------------------------- */
  /* Subscribing                                                            */
  /* ---------------------------------------------------------------------- */

  datatype Backend = Accepted | Refused(status: int) | NetworkError

  /** What the browser and the backend will do when asked. */
  datatype Browser = Browser(
    hasWindow: bool,
    hasNotification: bool,
    hasServiceWorker: bool,
    hasPushManager: bool,
    permissionAnswer: Option<Permission>,
    serviceWorkerReady: bool,
    getSubscriptionThrows: bool,
    hasSubscription: bool,
    subscribeSucceeds: bool,
    backend: Backend)

  /** The outward actions of a subscription attempt. */
  datatype Action =
    | AskPermission
    | AwaitServiceWorker
    | GetSubscription
    | Subscribe(applicationServerKey: seq<byte>)
    | PostSubscription(region: string)

  datatype Outcome = Outcome(ok: bool, message: string, actions: seq<Action>)

  const NoClient := "Клієнтське середовище недоступне"
  const NotSupported := "Push / Notification / ServiceWorker не підтримуються браузером"
  const NotPermitted := "Дозвіл на сповіщення не надано"
  const NoVapidKey := "VAPID ключ не налаштовано"
  const NotReady := "Service worker не готовий"
  const SubscribeFailed := "Не вдалося підписатися на push"
  const BackendRefused := "Бекенд відхилив підписку"
  const Enabled := "Сповіщення увімкнено"
  const NetworkFailed := "Помилка мережі під час надсилання підписки"

  /** The last part, once a subscription is at hand: post it to the backend. */
  function PostToBackend(b: Browser, region: string, before: seq<Action>): (o: Outcome)
    ensures o.actions == before + [PostSubscription(region)]
    ensures o.ok <==> b.backend.Accepted?
    ensures o.ok ==> o.message == Enabled
    ensures b.backend.Refused? ==> o.message == BackendRefused
    ensures b.backend.NetworkError? ==> o.message == NetworkFailed
  {
    var actions := before + [PostSubscription(region)];
    match b.backend
    case Accepted => Outcome(true, Enabled, actions)
    case Refused(_) => Outcome(false, BackendRefused, actions)
    case NetworkError => Outcome(false, NetworkFailed, actions)
  }

  /**
   * `subscribeToPush`: environment, support, permission, VAPID key, service
   * worker, subscription, backend, in that order; the first failure decides
   * the message.
   */
  function SubscribeToPush(b: Browser, vapidKey: Option<string>, region: string): (o: Outcome)
    ensures !b.hasWindow ==> o == Outcome(false, NoClient, [])
    ensures b.hasWindow && !(b.hasNotification && b.hasServiceWorker && b.hasPushManager) ==>
              o == Outcome(false, NotSupported, [])
    ensures o.ok ==> o.message == Enabled
  {
    if !b.hasWindow then Outcome(false, NoClient, [])
    else if !b.hasNotification || !b.hasServiceWorker || !b.hasPushManager then Outcome(false, NotSupported, [])
    else if RequestPermission(b.hasWindow, b.hasNotification, b.permissionAnswer) != Granted then
      Outcome(false, NotPermitted, [AskPermission])
    else if vapidKey.None? || vapidKey.value == "" then Outcome(false, NoVapidKey, [AskPermission])
    else if !b.serviceWorkerReady then Outcome(false, NotReady, [AskPermission, AwaitServiceWorker])
    else SubscribeAndPost(b, UrlBase64ToUint8Array(vapidKey.value), region)
  }

  /**
   * Once the service worker is ready: reuse an existing subscription or
   * subscribe with the decoded key, then post. Looking up the existing
   * subscription may itself throw, and a key that `atob` rejects (`decoded`
   * is None) throws inside the subscription step; both are reported as a
   * failed subscription.
   */
  function SubscribeAndPost(b: Browser, decoded: Option<seq<byte>>, region: string): (o: Outcome)
    ensures |o.actions| >= 3 && o.actions[..3] == [AskPermission, AwaitServiceWorker, GetSubscription]
    ensures forall i :: 0 <= i < |o.actions| && o.actions[i].Subscribe? ==>
              && i == 3 && !b.getSubscriptionThrows && !b.hasSubscription
              && decoded == Some(o.actions[i].applicationServerKey)
    ensures b.getSubscriptionThrows ==>
              o == Outcome(false, SubscribeFailed, [AskPermission, AwaitServiceWorker, GetSubscription])
    ensures o.ok ==> o.actions[|o.actions| - 1] == PostSubscription(region)
  {
    var looked := [AskPermission, AwaitServiceWorker, GetSubscription];
    if b.getSubscriptionThrows then Outcome(false, SubscribeFailed, looked)
    else if b.hasSubscription then PostToBackend(b, region, looked)
    else match decoded
      case None => Outcome(false, SubscribeFailed, looked)
      case Some(key) =>
        var tried := looked + [Subscribe(key)];
        if !b.subscribeSucceeds then Outcome(false, SubscribeFailed, tried)
        else PostToBackend(b, region, tried)
  }

  /** Whether an outcome's actions include a subscription attempt. */
  predicate AttemptedSubscribe(o: Outcome) {
    exists i :: 0 <= i < |o.actions| && o.actions[i].Subscribe?
  }

  /** Without granted permission nothing past the prompt happens, and the message says so. */
  lemma NoSubscribeWithoutPermission(b: Browser, vapidKey: Option<string>, region: string)
    requires b.hasWindow && b.hasNotification && b.hasServiceWorker && b.hasPushManager
    requires b.permissionAnswer != Some(Granted)
    ensures SubscribeToPush(b, vapidKey, region) == Outcome(false, NotPermitted, [AskPermission])
    ensures !AttemptedSubscribe(SubscribeToPush(b, vapidKey, region))
  {
  }

  /** With permission but no key, nothing past the prompt happens either. */
  lemma NoSubscribeWithoutKey(b: Browser, vapidKey: Option<string>, region: string)
    requires b.hasWindow && b.hasNotification && b.hasServiceWorker && b.hasPushManager
    requires b.permissionAnswer == Some(Granted)
    requires vapidKey.None? || vapidKey.value == ""
    ensures SubscribeToPush(b, vapidKey, region) == Outcome(false, NoVapidKey, [AskPermission])
    ensures !AttemptedSubscribe(SubscribeToPush(b, vapidKey, region))
  {
  }

  /** A subscription attempt is the fourth action, follows a granted prompt, and carries the decoded VAPID key. */
  lemma SubscribeCarriesKey(b: Browser, vapidKey: Option<string>, region: string)
    ensures var o := SubscribeToPush(b, vapidKey, region);
            forall i :: 0 <= i < |o.actions| && o.actions[i].Subscribe? ==>
              && i == 3
              && b.permissionAnswer == Some(Granted) && vapidKey.Some?
              && UrlBase64ToUint8Array(vapidKey.value) == Some(o.actions[i].applicationServerKey)
  {
    var o := SubscribeToPush(b, vapidKey, region);
    if b.hasWindow && b.hasNotification && b.hasServiceWorker && b.hasPushManager
       && b.permissionAnswer == Some(Granted) && vapidKey.Some? && vapidKey.value != "" && b.serviceWorkerReady {
      assert o == SubscribeAndPost(b, UrlBase64ToUint8Array(vapidKey.value), region);
    }
  }

  /** Success needs every gate passed and the backend's acceptance, and ends with the subscription posted. */
  lemma SuccessMeansPosted(b: Browser, vapidKey: Option<string>, region: string)
    requires SubscribeToPush(b, vapidKey, region).ok
    ensures b.hasWindow && b.hasNotification && b.hasServiceWorker && b.hasPushManager
    ensures b.permissionAnswer == Some(Granted) && vapidKey.Some? && vapidKey.value != ""
    ensures b.serviceWorkerReady && !b.getSubscriptionThrows && b.backend.Accepted?
    ensures var o := SubscribeToPush(b, vapidKey, region);
            |o.actions| > 0 && o.actions[|o.actions| - 1] == PostSubscription(region)
  {
  }

  /** Once the service worker is ready, a failing subscription lookup ends the attempt before any subscribe. */
  lemma LookupFailureStopsSubscribe(b: Browser, vapidKey: Option<string>, region: string)
    requires b.hasWindow && b.hasNotification && b.hasServiceWorker && b.hasPushManager
    requires b.permissionAnswer == Some(Granted) && vapidKey.Some? && vapidKey.value != ""
    requires b.serviceWorkerReady && b.getSubscriptionThrows
    ensures SubscribeToPush(b, vapidKey, region)
              == Outcome(false, SubscribeFailed, [AskPermission, AwaitServiceWorker, GetSubscription])
    ensures !AttemptedSubscribe(SubscribeToPush(b, vapidKey, region))
  {
  }

  /** A key produced by the URL-safe encoder never makes the subscription step fail on decoding. */
  lemma EncodedKeySubscribes(b: Browser, key: seq<byte>, region: string)
    requires b.hasWindow && b.hasNotification && b.hasServiceWorker && b.hasPushManager
    requires b.permissionAnswer == Some(Granted) && b.serviceWorkerReady
    requires !b.getSubscriptionThrows && !b.hasSubscription
    requires |key| > 0
    ensures var o := SubscribeToPush(b, Some(EncodeUrl(key)), region);
            |o.actions| >= 4 && o.actions[3] == Subscribe(key)
  {
    UrlBase64RoundTrip(key);
    assert |EncodeSextets(key)| > 0;
  }
}
