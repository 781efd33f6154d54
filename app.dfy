/** The application shell: the sign-in flag kept in `localStorage`, the
    counter of today's appointments shown in the sidebar and the two route
    tables, one for a signed-out and one for a signed-in user. */
module App {
  import opened Wrappers
  import opened Seqs
  import opened Calendar
  import opened Storage
  import Schedule

  /** The `localStorage` key of the sign-in flag. */
  const AuthKey: string := "vet_auth"

  /** `localStorage.getItem("vet_auth") === "true"`. */
  predicate StoredAuth(items: map<string, string>) {
    AuthKey in items && items[AuthKey] == "true"
  }

  /** A reload after `login` starts signed in, one after `logout` signed out,
      and `login` then `logout` leaves the store as `logout` alone would. */
  lemma LoginLogoutPersist(items: map<string, string>)
    ensures StoredAuth(items[AuthKey := "true"])
    ensures !StoredAuth(items - {AuthKey})
    ensures items[AuthKey := "true"] - {AuthKey} == items - {AuthKey}
    ensures AuthKey !in items[AuthKey := "true"] - {AuthKey}
  {
    assert AuthKey in items[AuthKey := "true"];
  }

  // ---------------------------------------------------------------------
  // Today's appointments

  /** The two appointments the shell starts with, at 09:00 and 11:00 on the
      day it is first rendered. */
  function InitialAppointments(now: DateTime): (apps: seq<Schedule.Appointment>)
    ensures |apps| == 2
    ensures forall i :: 0 <= i < 2 ==> SameDay(apps[i].startTime, now)
  {
    [ Schedule.Appointment("1", "Luna", "Carlos Gómez", Schedule.Consulta, "Dr. Pérez", "Marta R.",
        SetHours(now, 9, 0), 39),
      Schedule.Appointment("2", "Max", "Maria R.", Schedule.Cirugia, "Dr. Pérez", "Juan K.",
        SetHours(now, 11, 0), 120) ]
  }

  /** The filter's test: the appointment starts on the same calendar day. */
  function OnDay(today: DateTime): Schedule.Appointment -> bool {
    (a: Schedule.Appointment) => SameDay(a.startTime, today)
  }

  /** `todayCount`: the length of the appointments filtered to today's date. */
  function TodayCount(appointments: seq<Schedule.Appointment>, today: DateTime): (n: nat)
    ensures n <= |appointments|
  {
    |Filter(appointments, OnDay(today))|
  }

  /** The positions of the appointments that fall on `today`. */
  function TodayIndexes(appointments: seq<Schedule.Appointment>, today: DateTime): set<int> {
    set i | 0 <= i < |appointments| && SameDay(appointments[i].startTime, today)
  }

  /** The counter is the number of appointments dated today. */
  lemma {:induction false} TodayCountIsIndexCount(appointments: seq<Schedule.Appointment>, today: DateTime)
    ensures TodayCount(appointments, today) == |TodayIndexes(appointments, today)|
  {
    if appointments == [] {
      assert TodayIndexes(appointments, today) == {};
    } else {
      var n := |appointments| - 1;
      var init, last := appointments[..n], appointments[n];
      assert appointments == init + [last];
      FilterAppend(init, [last], OnDay(today));
      TodayCountIsIndexCount(init, today);
      IndexesSnoc(init, last, today);
      assert n !in TodayIndexes(init, today);
    }
  }

  /** Appending an appointment adds its position when it falls on `today`. */
  lemma IndexesSnoc(init: seq<Schedule.Appointment>, last: Schedule.Appointment, today: DateTime)
    ensures TodayIndexes(init + [last], today) ==
      TodayIndexes(init, today) + (if SameDay(last.startTime, today) then {|init|} else {})
  {
    var apps := init + [last];
    forall i | 0 <= i < |init|
      ensures apps[i] == init[i]
    {
    }
  }

  /** The counter is zero exactly when no appointment falls on today. */
  lemma TodayCountZero(appointments: seq<Schedule.Appointment>, today: DateTime)
    ensures TodayCount(appointments, today) == 0 <==>
      forall i :: 0 <= i < |appointments| ==> !SameDay(appointments[i].startTime, today)
  {
    FilterEmpty(appointments, OnDay(today));
  }

  /** On the day the shell starts, both initial appointments count. */
  lemma InitialCountIsTwo(now: DateTime)
    ensures TodayCount(InitialAppointments(now), now) == 2
  {
    var apps := InitialAppointments(now);
    TodayCountIsIndexCount(apps, now);
    assert TodayIndexes(apps, now) == {0, 1};
  }

  // ---------------------------------------------------------------------
  // Routes

  /** The page elements the route tables can render. */
  datatype Page =
    | Dashboard | Patients | Owners | Agenda | Inventory | Staff | Users
    | MedicalRecords | Settings | Login | Recovery | ResetPassword

  /** A route's element: a page, or `<Navigate to=... replace />`. */
  datatype Outcome = Show(page: Page) | NavigateTo(path: string)

  const PublicPaths: set<string> := {"/login", "/recovery", "/reset-password"}

  const PrivatePaths: set<string> :=
    {"/", "/patients", "/owners", "/schedule", "/inventory", "/staff", "/users", "/records", "/settings"}

  /** The routes of a signed-out user; `*` sends everything else to `/login`. */
  function PublicRoute(path: string): Outcome {
    if path == "/login" then Show(Login)
    else if path == "/recovery" then Show(Recovery)
    else if path == "/reset-password" then Show(ResetPassword)
    else NavigateTo("/login")
  }

  /** The routes of a signed-in user; `/login` and `*` send to `/`. */
  function PrivateRoute(path: string): Outcome {
    if path == "/" then Show(Dashboard)
    else if path == "/patients" then Show(Patients)
    else if path == "/owners" then Show(Owners)
    else if path == "/schedule" then Show(Agenda)
    else if path == "/inventory" then Show(Inventory)
    else if path == "/staff" then Show(Staff)
    else if path == "/users" then Show(Users)
    else if path == "/records" then Show(MedicalRecords)
    else if path == "/settings" then Show(Settings)
    else NavigateTo("/")
  }

  /** The table in force for the current sign-in state. */
  function Route(authenticated: bool, path: string): Outcome {
    if authenticated then PrivateRoute(path) else PublicRoute(path)
  }

  /** Signed out, exactly the three public paths resolve, only to the public
      pages, and every other path is sent to `/login`. */
  lemma SignedOutRoutes(path: string)
    ensures Route(false, path).Show? <==> path in PublicPaths
    ensures Route(false, path).Show? ==> Route(false, path).page in {Login, Recovery, ResetPassword}
    ensures !Route(false, path).Show? ==> Route(false, path) == NavigateTo("/login")
  {
  }

  /** Signed in, exactly the nine listed paths resolve, the public pages are
      never shown, and `/login` like every unknown path is sent to `/`. */
  lemma SignedInRoutes(path: string)
    ensures Route(true, path).Show? <==> path in PrivatePaths
    ensures Route(true, path).Show? ==> Route(true, path).page !in {Login, Recovery, ResetPassword}
    ensures !Route(true, path).Show? ==> Route(true, path) == NavigateTo("/")
    ensures Route(true, "/login") == NavigateTo("/")
  {
  }

  /** A redirect lands on a page in one step: there is no redirect loop. */
  lemma RedirectsSettle(authenticated: bool, path: string)
    ensures Route(authenticated, path).NavigateTo? ==>
      Route(authenticated, Route(authenticated, path).path).Show?
  {
  }

  /** Each page has one path: two paths that show the same page are equal. */
  lemma RoutesInjective(authenticated: bool, p: string, q: string)
    requires Route(authenticated, p).Show? && Route(authenticated, p) == Route(authenticated, q)
    ensures p == q
  {
  }

  // ---------------------------------------------------------------------
  // The shell's state

  class AppState {
    const storage: LocalStorage
    var isAuthenticated: bool
    var appointments: seq<Schedule.Appointment>

    /** The first render: the flag is read from the store, the appointment
        list is the initial one. */
    constructor (storage: LocalStorage, now: DateTime)
      ensures this.storage == storage
      ensures isAuthenticated == StoredAuth(storage.items)
      ensures appointments == InitialAppointments(now)
    {
      this.storage := storage;
      isAuthenticated := storage.GetItem(AuthKey) == Some("true");
      appointments := InitialAppointments(now);
    }

    /** `login`: store `"true"` and switch to the signed-in routes. */
    method Login()
      modifies this, storage
      ensures storage.items == old(storage.items)[AuthKey := "true"]
      ensures isAuthenticated && StoredAuth(storage.items)
      ensures appointments == old(appointments)
    {
      storage.SetItem(AuthKey, "true");
      isAuthenticated := true;
    }

    /** `logout`: remove the key and switch to the signed-out routes. */
    method Logout()
      modifies this, storage
      ensures storage.items == old(storage.items) - {AuthKey}
      ensures !isAuthenticated && !StoredAuth(storage.items)
      ensures appointments == old(appointments)
    {
      storage.RemoveItem(AuthKey);
      isAuthenticated := false;
    }
  }
}
