/** The state-changing and filtering views of portfolio/views.py: the project
    list and home page filters, the project detail view counter, the contact
    submission, the CV download name and `mark_message_read`. */
module Views {
  import opened Base
  import opened Text
  import opened Sorting
  import opened Http
  import opened Models
  import opened Settings
  import opened Stats

  // ------------------------------------------------------------- projects

  const HomeFeaturedCount: nat := 3

  predicate Listed(p: Project) {
    p.status == StatusCompleted || p.status == StatusInProgress
  }

  predicate FeaturedCompleted(p: Project) {
    p.featured && p.status == StatusCompleted
  }

  /** `home`: `filter(featured=True, status='completed')[:3]` in the default
      project order. */
  function HomeProjects(ps: seq<Project>): (r: seq<Project>)
    ensures |r| <= HomeFeaturedCount
    ensures forall i :: 0 <= i < |r| ==> r[i].featured && r[i].status == StatusCompleted
    ensures multiset(r) <= multiset(ps)
    ensures SortedBy(r, ProjectBefore)
    ensures |r| < HomeFeaturedCount ==> forall i :: 0 <= i < |ps| && FeaturedCompleted(ps[i]) ==> ps[i] in r
    ensures |r| > 0 ==> forall p :: p in multiset(Filter(ps, FeaturedCompleted)) - multiset(r)
                                    ==> ProjectBefore(r[|r| - 1], p)
  {
    var ordered := InDefaultOrder(ps);
    var matching := Filter(ordered, FeaturedCompleted);
    var r := Prefix(matching, HomeFeaturedCount);
    HomeProjectsFacts(ps, ordered, matching, HomeFeaturedCount, r);
    HomeProjectsFirst(ps, ordered, matching, HomeFeaturedCount, r);
    r
  }

  /** Every featured completed project left off the page comes no earlier in
      the default order than the last one shown: the page holds the first
      `n` of them. */
  lemma HomeProjectsFirst(ps: seq<Project>, ordered: seq<Project>, matching: seq<Project>, n: nat, r: seq<Project>)
    requires multiset(ordered) == multiset(ps) && SortedBy(ordered, ProjectBefore)
    requires matching == Filter(ordered, FeaturedCompleted)
    requires r == Prefix(matching, n)
    ensures |r| > 0 ==> forall p :: p in multiset(Filter(ps, FeaturedCompleted)) - multiset(r)
                                    ==> ProjectBefore(r[|r| - 1], p)
  {
    SortedFilter(ordered, FeaturedCompleted, ProjectBefore);
    PrefixRanks(matching, ProjectBefore, n);
    FilterPermutation(ordered, ps, FeaturedCompleted);
  }

  /** The first `n` featured completed projects of the ordered table. */
  lemma HomeProjectsFacts(ps: seq<Project>, ordered: seq<Project>, matching: seq<Project>, n: nat, r: seq<Project>)
    requires multiset(ordered) == multiset(ps) && SortedBy(ordered, ProjectBefore)
    requires matching == Filter(ordered, FeaturedCompleted)
    requires r == Prefix(matching, n)
    ensures forall i :: 0 <= i < |r| ==> r[i].featured && r[i].status == StatusCompleted
    ensures multiset(r) <= multiset(ps)
    ensures SortedBy(r, ProjectBefore)
    ensures |r| < n ==> forall i :: 0 <= i < |ps| && FeaturedCompleted(ps[i]) ==> ps[i] in r
  {
    SortedFilter(ordered, FeaturedCompleted, ProjectBefore);
    forall i | 0 <= i < |r|
      ensures FeaturedCompleted(r[i])
    {
      assert r[i] == matching[i];
    }
    if |r| < n {
      assert r == matching;
      forall i | 0 <= i < |ps| && FeaturedCompleted(ps[i])
        ensures ps[i] in r
      {
        assert ps[i] in multiset(ordered);
        var k :| 0 <= k < |ordered| && ordered[k] == ps[i];
      }
    }
  }

  /** The listing's tech and search filters (`extra`), narrowing the
      completed and in-progress projects; `status`, when non-empty, narrows
      further. The result is in the default project order. */
  function ProjectListing(ps: seq<Project>, status: Option<string>, extra: Project -> bool): (r: seq<Project>)
    ensures forall i :: 0 <= i < |r| ==> Listed(r[i]) && r[i].status != StatusArchived
    ensures status.Some? && status.value != "" ==> forall i :: 0 <= i < |r| ==> r[i].status == status.value
    ensures forall i :: 0 <= i < |r| ==> extra(r[i])
    ensures forall i :: 0 <= i < |ps| && Listed(ps[i]) && extra(ps[i])
                        && (status.None? || status.value == "" || ps[i].status == status.value)
                        ==> ps[i] in r
    ensures multiset(r) <= multiset(ps)
    ensures SortedBy(r, ProjectBefore)
  {
    var keep := (p: Project) =>
      Listed(p) && extra(p) && (status.None? || status.value == "" || p.status == status.value);
    var ordered := InDefaultOrder(ps);
    var r := Filter(ordered, keep);
    SortedFilter(ordered, keep, ProjectBefore);
    forall i | 0 <= i < |ps| && keep(ps[i])
      ensures ps[i] in r
    {
      assert ps[i] in multiset(ordered);
      var k :| 0 <= k < |ordered| && ordered[k] == ps[i];
    }
    r
  }

  /** The two figures shown above the listing: all projects, and the
      completed ones among them. */
  function ProjectTotals(ps: seq<Project>): (r: (nat, nat))
    ensures r.0 == |ps|
    ensures r.1 <= r.0
    ensures r.1 == |Filter(ps, (p: Project) => p.status == StatusCompleted)|
    ensures r.1 >= |HomeProjects(ps)|
  {
    var completed := (p: Project) => p.status == StatusCompleted;
    var home := HomeProjects(ps);
    CountMono(ps, FeaturedCompleted, completed);
    assert |Filter(InDefaultOrder(ps), FeaturedCompleted)| >= |home|;
    CountPermutation(InDefaultOrder(ps), ps, FeaturedCompleted);
    (|ps|, Count(ps, completed))
  }

  // -------------------------------------------------------- project detail

  predicate UniqueSlugs(ps: seq<Project>) {
    forall i, j :: 0 <= i < j < |ps| ==> ps[i].slug != ps[j].slug
  }

  function HasSlug(slug: string): Project -> bool {
    (p: Project) => p.slug == slug
  }

  /** The project table after one detail view of `slug`: the first project
      with that slug has its counter bumped. */
  function ViewOnce(ps: seq<Project>, slug: string): seq<Project> {
    match Find(ps, HasSlug(slug))
    case None => ps
    case Some(k) => ps[k := IncrementViews(ps[k])]
  }

  datatype DetailResult = NotFound | Shown(project: Project, projects: seq<Project>)

  /** `project_detail`: a 404 for an unknown slug; otherwise the project, whose
      stored `views` goes up by one and nothing else in the table changes. */
  function ProjectDetail(ps: seq<Project>, slug: string): (r: DetailResult)
    ensures r.NotFound? <==> forall i :: 0 <= i < |ps| ==> ps[i].slug != slug
    ensures r.Shown? ==> r.project.slug == slug && |r.projects| == |ps|
    ensures r.Shown? ==> exists k :: 0 <= k < |ps| && ps[k].slug == slug
                                  && r.projects[k] == r.project == IncrementViews(ps[k])
                                  && forall i :: 0 <= i < |ps| && i != k ==> r.projects[i] == ps[i]
    ensures r.Shown? && UniqueSlugs(ps) ==>
      forall i :: 0 <= i < |ps| ==> r.projects[i] == (if ps[i].slug == slug then IncrementViews(ps[i]) else ps[i])
  {
    match Find(ps, HasSlug(slug))
    case None => NotFound
    case Some(k) => Shown(IncrementViews(ps[k]), ViewOnce(ps, slug))
  }


  /** The project table after `n` detail views of one slug. */
  function DetailViews(ps: seq<Project>, slug: string, n: nat): seq<Project>
  {
    if n == 0 then ps else ViewOnce(DetailViews(ps, slug, n - 1), slug)
  }

  /** With unique slugs, viewing the project at `k` bumps exactly that row
      and keeps the slugs unique. */
  lemma ViewOnceUnique(ps: seq<Project>, slug: string, k: nat)
    requires UniqueSlugs(ps) && k < |ps| && ps[k].slug == slug
    ensures ViewOnce(ps, slug) == ps[k := IncrementViews(ps[k])]
    ensures UniqueSlugs(ViewOnce(ps, slug))
  {
    var j := Find(ps, HasSlug(slug));
    assert j.Some? && j.value == k;
    var after := ps[k := IncrementViews(ps[k])];
    assert forall i :: 0 <= i < |ps| ==> after[i].slug == ps[i].slug;
  }

  /** `n` sequential detail views of a stored project add exactly `n` to its
      counter and leave every other project alone. */
  lemma {:induction false} DetailViewsAddN(ps: seq<Project>, slug: string, n: nat, k: nat)
    requires UniqueSlugs(ps) && k < |ps| && ps[k].slug == slug
    ensures |DetailViews(ps, slug, n)| == |ps|
    ensures UniqueSlugs(DetailViews(ps, slug, n))
    ensures DetailViews(ps, slug, n)[k] == ps[k].(views := ps[k].views + n)
    ensures forall i :: 0 <= i < |ps| && i != k ==> DetailViews(ps, slug, n)[i] == ps[i]
  {
    if n > 0 {
      DetailViewsAddN(ps, slug, n - 1, k);
      var before := DetailViews(ps, slug, n - 1);
      ViewOnceUnique(before, slug, k);
    }
  }

  // --------------------------------------------------------------- contact

  /** The validated fields of the contact form. */
  datatype ContactForm = ContactForm(name: string, email: string, subject: string,
                                     message: string, priority: string)

  predicate UniqueIds(cs: seq<Contact>) {
    forall i, j :: 0 <= i < j < |cs| ==> cs[i].id != cs[j].id
  }

  /** The id the database gives the next row: one above every id in use. */
  function NextContactId(cs: seq<Contact>): (id: int)
    ensures forall i :: 0 <= i < |cs| ==> cs[i].id < id
  {
    if |cs| == 0 then 1
    else
      var rest := NextContactId(cs[1..]);
      if cs[0].id + 1 > rest then cs[0].id + 1 else rest
  }

  /** `contact` with a valid POST: the message is stored with the client's
      address and the full, untruncated user agent, unread and unanswered. */
  function SubmitContact(cs: seq<Contact>, req: Request, form: ContactForm, now: Instant): (r: seq<Contact>)
    ensures |r| == |cs| + 1 && r[..|cs|] == cs
    ensures var c := r[|cs|];
      && c.name == form.name && c.email == form.email && c.subject == form.subject
      && c.message == form.message && c.priority == form.priority && c.createdAt == now
      && c.ip == ClientIp(req) && c.userAgent == req.userAgent.GetOr("")
      && !c.read && !c.replied
      && forall i :: 0 <= i < |cs| ==> cs[i].id != c.id
    ensures UniqueIds(cs) ==> UniqueIds(r)
    ensures Unread(r) == Unread(cs) + 1
  {
    var c := NewContact(NextContactId(cs), form.name, form.email, form.subject, form.message,
                        Some(form.priority), now, ClientIp(req), req.userAgent.GetOr(""));
    CountAppend(cs, [c], IsUnread);
    assert (cs + [c])[..|cs|] == cs;
    cs + [c]
  }

  // ----------------------------------------------------- mark message read

  /** The JSON body `{success, error?}`. */
  datatype JsonReply = JsonReply(success: bool, error: Option<string>)

  const MethodNotAllowed: string := "Méthode non autorisée"
  const MessageNotFound: string := "Message non trouvé"

  function HasId(id: int): Contact -> bool {
    (c: Contact) => c.id == id
  }

  /** `mark_message_read`: three outcomes, each with its fixed reply. */
  function MarkMessageRead(verb: string, id: int, cs: seq<Contact>): (r: (JsonReply, seq<Contact>))
    ensures verb != "POST" ==> r == (JsonReply(false, Some(MethodNotAllowed)), cs)
    ensures verb == "POST" && (forall i :: 0 <= i < |cs| ==> cs[i].id != id)
            ==> r == (JsonReply(false, Some(MessageNotFound)), cs)
    ensures verb == "POST" && (exists i :: 0 <= i < |cs| && cs[i].id == id)
            ==> r.0 == JsonReply(true, None) && |r.1| == |cs|
    ensures UniqueIds(cs) && verb == "POST" ==>
      forall i :: 0 <= i < |cs| ==> r.1[i] == (if cs[i].id == id then MarkAsRead(cs[i]) else cs[i])
  {
    if verb != "POST" then (JsonReply(false, Some(MethodNotAllowed)), cs)
    else match Find(cs, HasId(id))
      case None => (JsonReply(false, Some(MessageNotFound)), cs)
      case Some(k) => (JsonReply(true, None), cs[k := MarkAsRead(cs[k])])
  }

  /** Marking a message read lowers the unread count by one when it was
      unread and leaves it alone otherwise; the message total never moves. */
  lemma MarkMessageReadUnread(verb: string, id: int, cs: seq<Contact>)
    requires UniqueIds(cs)
    ensures |MarkMessageRead(verb, id, cs).1| == |cs|
    ensures Unread(MarkMessageRead(verb, id, cs).1) ==
      Unread(cs) - (if verb == "POST" && exists i :: 0 <= i < |cs| && cs[i].id == id && !cs[i].read then 1 else 0)
  {
    var after := MarkMessageRead(verb, id, cs).1;
    if verb == "POST" && Find(cs, HasId(id)).Some? {
      var k := Find(cs, HasId(id)).value;
      CountUpdate(cs, k, MarkAsRead(cs[k]), IsUnread);
      if exists i :: 0 <= i < |cs| && cs[i].id == id && !cs[i].read {
        var i :| 0 <= i < |cs| && cs[i].id == id && !cs[i].read;
        assert i == k;
      }
    }
  }

  // ----------------------------------------------------------- CV download

  datatype CvResponse = Attachment(filename: string, disposition: string) | Unavailable(message: string)

  const CvUnavailable: string := "CV non disponible"

  /** `download_cv`: an attachment named after the owner when the first
      settings row has a resume file, otherwise the "CV non disponible"
      notice. The file's bytes are not modelled. */
  function DownloadCv(table: seq<SettingsRow>): (r: CvResponse)
    ensures r.Attachment? <==> First(table).Some? && First(table).value.resumeFile != ""
    ensures r.Unavailable? ==> r.message == CvUnavailable
    ensures r.Attachment? ==>
      && r.filename == "CV_" + SpacesToUnderscores(First(table).value.name) + ".pdf"
      && |r.filename| == |First(table).value.name| + 7
      && ' ' !in r.filename
      && r.disposition == "attachment; filename=\"" + r.filename + "\""
  {
    match First(table)
    case Some(s) =>
      if s.resumeFile != "" then
        var name := "CV_" + SpacesToUnderscores(s.name) + ".pdf";
        Attachment(name, "attachment; filename=\"" + name + "\"")
      else Unavailable(CvUnavailable)
    case None => Unavailable(CvUnavailable)
  }

  /** The CV name gives the owner's name back, spaces and underscores both
      read as underscores. */
  lemma CvFilenameShape(table: seq<SettingsRow>)
    requires DownloadCv(table).Attachment?
    ensures var f := DownloadCv(table).filename;
      var name := First(table).value.name;
      && f[..3] == "CV_" && f[|f| - 4..] == ".pdf"
      && forall i :: 0 <= i < |name| ==>
           f[3 + i] == (if name[i] == ' ' then '_' else name[i])
  {
    var f := DownloadCv(table).filename;
    var name := First(table).value.name;
    var mid := SpacesToUnderscores(name);
    assert f == "CV_" + mid + ".pdf";
    forall i | 0 <= i < |name|
      ensures f[3 + i] == (if name[i] == ' ' then '_' else name[i])
    {
      assert f[3 + i] == mid[i];
    }
  }
}
