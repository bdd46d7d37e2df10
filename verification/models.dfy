/** The persisted entities of the portfolio (portfolio/models.py) as immutable
    records, their single-field updates, defaults, default orderings and the
    priority badge table. Instants are whole seconds; days are integers. */
module Models {
  import opened Base
  import opened Sorting

  /** A point in time, in seconds. */
  type Instant = int

  const SecondsPerDay: int := 86400

  /** The calendar day holding instant `t` (the ORM's `__date` lookup). */
  function DayOf(t: Instant): (d: int)
    ensures d * SecondsPerDay <= t < (d + 1) * SecondsPerDay
  {
    t / SecondsPerDay
  }

  const StatusCompleted: string := "completed"
  const StatusInProgress: string := "in_progress"
  const StatusArchived: string := "archived"

  datatype Project = Project(
    id: int,
    slug: string,
    title: string,
    status: string,
    featured: bool,
    order: int,
    createdAt: Instant,
    views: int,
    technologies: seq<string>)

  datatype Contact = Contact(
    id: int,
    name: string,
    email: string,
    subject: string,
    message: string,
    priority: string,
    createdAt: Instant,
    read: bool,
    replied: bool,
    ip: Option<string>,
    userAgent: string)

  /** One logged page view. The IP column is NOT NULL, so a stored visit always
      has one. */
  datatype Visit = Visit(
    ip: string,
    userAgent: string,
    page: string,
    at: Instant,
    sessionKey: string)

  datatype Experience = Experience(startDate: int, order: int)

  datatype SiteSettings = SiteSettings(name: string, resumeFile: string)

  /** A stored settings row with its primary key. */
  datatype SettingsRow = SettingsRow(pk: int, value: SiteSettings)

  /** The whole store: one table per entity, in insertion order. */
  datatype Db = Db(
    projects: seq<Project>,
    contacts: seq<Contact>,
    visits: seq<Visit>,
    settings: seq<SettingsRow>)

  // ---------------------------------------------------------------- defaults

  const DefaultPriority: string := "medium"

  /** A project as the admin creates it, all defaulted fields left alone. */
  function NewProject(id: int, slug: string, title: string, createdAt: Instant,
                      technologies: seq<string>): Project
  {
    Project(id, slug, title, StatusCompleted, false, 0, createdAt, 0, technologies)
  }

  /** A contact message as created from its form fields; `priority` falls back
      to the field default when not supplied. */
  function NewContact(id: int, name: string, email: string, subject: string,
                      message: string, priority: Option<string>, createdAt: Instant,
                      ip: Option<string>, userAgent: string): Contact
  {
    Contact(id, name, email, subject, message, priority.GetOr(DefaultPriority),
            createdAt, false, false, ip, userAgent)
  }

  // ------------------------------------------------------ single-field updates

  /** `Project.increment_views`: one more view, and only `views` is written. */
  function IncrementViews(p: Project): (r: Project)
    ensures r.views == p.views + 1
    ensures r.(views := p.views) == p
  {
    p.(views := p.views + 1)
  }

  /** `n` sequential detail-page views. */
  function IncrementViewsTimes(p: Project, n: nat): Project {
    if n == 0 then p else IncrementViews(IncrementViewsTimes(p, n - 1))
  }

  /** `n` sequential increments add exactly `n` and touch nothing else. */
  lemma {:induction false} IncrementViewsTimesAddsN(p: Project, n: nat)
    ensures IncrementViewsTimes(p, n).views == p.views + n
    ensures IncrementViewsTimes(p, n).(views := p.views) == p
  {
    if n > 0 {
      IncrementViewsTimesAddsN(p, n - 1);
    }
  }

  /** A freshly created project has seen no views: after `n` detail views it
      shows exactly `n`, and it is a completed, non-featured project. */
  lemma NewProjectViews(id: int, slug: string, title: string, createdAt: Instant,
                        technologies: seq<string>, n: nat)
    ensures var p := NewProject(id, slug, title, createdAt, technologies);
      p.status == StatusCompleted && !p.featured && p.order == 0
      && IncrementViewsTimes(p, n).views == n
  {
    IncrementViewsTimesAddsN(NewProject(id, slug, title, createdAt, technologies), n);
  }

  /** `Contact.mark_as_read`: sets `read`, and only `read` is written. */
  function MarkAsRead(c: Contact): (r: Contact)
    ensures r.read
    ensures r.(read := c.read) == c
  {
    c.(read := true)
  }

  lemma MarkAsReadIdempotent(c: Contact)
    ensures MarkAsRead(MarkAsRead(c)) == MarkAsRead(c)
  {
  }

  /** A new message starts unread and unanswered, with priority `medium`
      unless the form supplied one. */
  lemma NewContactDefaults(id: int, name: string, email: string, subject: string,
                           message: string, priority: Option<string>, createdAt: Instant,
                           ip: Option<string>, userAgent: string)
    ensures var c := NewContact(id, name, email, subject, message, priority, createdAt, ip, userAgent);
      !c.read && !c.replied
      && (priority.None? ==> c.priority == "medium")
      && (priority.Some? ==> c.priority == priority.value)
      && MarkAsRead(c).read
  {
  }

  // ----------------------------------------------------------- badge classes

  const KnownPriorities: seq<string> := ["low", "medium", "high", "urgent"]

  /** `Contact.get_priority_badge_class`: a total map with a fallback. */
  function PriorityBadgeClass(priority: string): (r: string)
    ensures r in {"bg-success", "bg-info", "bg-warning", "bg-danger", "bg-secondary"}
    ensures r == "bg-secondary" <==> priority !in KnownPriorities
  {
    if priority == "low" then "bg-success"
    else if priority == "medium" then "bg-info"
    else if priority == "high" then "bg-warning"
    else if priority == "urgent" then "bg-danger"
    else "bg-secondary"
  }

  /** The admin list's badge colour for a priority, with its own fallback. */
  function AdminPriorityColor(priority: string): (r: string)
    ensures r == "#6c757d" <==> priority !in KnownPriorities
  {
    if priority == "low" then "#28a745"
    else if priority == "medium" then "#17a2b8"
    else if priority == "high" then "#ffc107"
    else if priority == "urgent" then "#dc3545"
    else "#6c757d"
  }

  /** The four priorities get four different badge classes, and the dashboard
      badge and the admin colour fall back on exactly the same priorities. */
  lemma PriorityBadgesDistinct(p: string, q: string)
    requires p in KnownPriorities && q in KnownPriorities && p != q
    ensures PriorityBadgeClass(p) != PriorityBadgeClass(q)
    ensures AdminPriorityColor(p) != AdminPriorityColor(q)
  {
  }

  // -------------------------------------------------------- default orderings

  /** `Project.Meta.ordering = ['-featured', 'order', '-created_at']`. */
  predicate ProjectBefore(a: Project, b: Project) {
    if a.featured != b.featured then a.featured
    else if a.order != b.order then a.order < b.order
    else a.createdAt >= b.createdAt
  }

  /** `Contact.Meta.ordering = ['-created_at']`. */
  predicate ContactNewerFirst(a: Contact, b: Contact) {
    a.createdAt >= b.createdAt
  }

  /** `SiteVisit.Meta.ordering = ['-timestamp']`. */
  predicate VisitNewerFirst(a: Visit, b: Visit) {
    a.at >= b.at
  }

  /** `Experience.Meta.ordering = ['-start_date', 'order']`. */
  predicate ExperienceBefore(a: Experience, b: Experience) {
    if a.startDate != b.startDate then a.startDate > b.startDate
    else a.order <= b.order
  }

  lemma DefaultOrderingsArePreorders()
    ensures TotalPreorder(ProjectBefore)
    ensures TotalPreorder(ContactNewerFirst)
    ensures TotalPreorder(VisitNewerFirst)
    ensures TotalPreorder(ExperienceBefore)
  {
  }

  /** In a list in default project order the featured projects come first and,
      among projects equally featured, `order` never decreases. */
  lemma ProjectOrderLexicographic(xs: seq<Project>, i: int, j: int)
    requires SortedBy(xs, ProjectBefore)
    requires 0 <= i < j < |xs|
    ensures xs[j].featured ==> xs[i].featured
    ensures xs[i].featured == xs[j].featured ==> xs[i].order <= xs[j].order
    ensures xs[i].featured == xs[j].featured && xs[i].order == xs[j].order
            ==> xs[i].createdAt >= xs[j].createdAt
  {
    assert ProjectBefore(xs[i], xs[j]);
  }

  /** The default project order as the ORM returns a table. */
  function InDefaultOrder(ps: seq<Project>): (r: seq<Project>)
    ensures multiset(r) == multiset(ps)
    ensures SortedBy(r, ProjectBefore)
  {
    DefaultOrderingsArePreorders();
    SortSorted(ps, ProjectBefore);
    Sort(ps, ProjectBefore)
  }
}
