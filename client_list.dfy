/** The client list: clients, each created with a default "General"
    project, and projects added to one client by id. */
module ClientList {
  import opened Values

  /** `Project`; `description` is optional. */
  datatype Project = Project(id: Id, name: string, description: Option<string>)

  datatype Client = Client(id: Id, name: string, emoji: string, color: string, tags: seq<string>, projects: seq<Project>)

  /** What the create-client dialog submits. */
  datatype ClientForm = ClientForm(name: string, emoji: string, color: string, tags: seq<string>)

  /** What the add-project form submits: a `Project` without its id. */
  datatype ProjectDraft = ProjectDraft(name: string, description: Option<string>)

  /** The component's state: `clients` and whether the dialog is `open`. */
  datatype ListState = ListState(clients: seq<Client>, open: bool)

  const GeneralName := "General"
  const GeneralDescription := "Default project for general tasks"

  function Initial(): ListState {
    ListState([], false)
  }

  /** The "Add Client" button. */
  function OpenDialog(st: ListState): (r: ListState)
    ensures r.open && r.clients == st.clients
  {
    st.(open := true)
  }

  function DefaultProject(projectId: Id): Project {
    Project(projectId, GeneralName, Some(GeneralDescription))
  }

  /** `addClient`: one client is appended with the submitted fields, a fresh
      id and a single default project; the clients before it are kept and
      the dialog closes. */
  function AddClient(st: ListState, form: ClientForm, clientId: Id, projectId: Id): (r: ListState)
    ensures !r.open
    ensures |r.clients| == |st.clients| + 1 && r.clients[..|st.clients|] == st.clients
    ensures var c := r.clients[|st.clients|];
      && c.id == clientId && c.name == form.name && c.emoji == form.emoji
      && c.color == form.color && c.tags == form.tags
      && c.projects == [Project(projectId, GeneralName, Some(GeneralDescription))]
  {
    ListState(st.clients + [Client(clientId, form.name, form.emoji, form.color, form.tags, [DefaultProject(projectId)])], false)
  }

  /** The project the client at position `i` would get. */
  function NewProject(draft: ProjectDraft, projectIdFor: nat -> Id, i: nat): Project {
    Project(projectIdFor(i), draft.name, draft.description)
  }

  function WithProject(c: Client, clientId: Id, p: Project): Client {
    if c.id == clientId then c.(projects := c.projects + [p]) else c
  }

  /** `addProject`: every client with the given id gets the project
      appended to its projects, each with an id of its own
      (`crypto.randomUUID()` runs once per matching client: the one drawn for
      the client at position `i` is `projectIdFor(i)`); every other client,
      the order and the dialog are unchanged. */
  function AddProject(st: ListState, clientId: Id, draft: ProjectDraft, projectIdFor: nat -> Id): (r: ListState)
    ensures r.open == st.open && |r.clients| == |st.clients|
    ensures forall i :: 0 <= i < |st.clients| && st.clients[i].id != clientId ==> r.clients[i] == st.clients[i]
    ensures forall i :: 0 <= i < |st.clients| && st.clients[i].id == clientId ==>
      r.clients[i] == st.clients[i].(projects := st.clients[i].projects + [Project(projectIdFor(i), draft.name, draft.description)])
  {
    st.(clients := seq(|st.clients|, (i: int) requires 0 <= i < |st.clients| =>
      WithProject(st.clients[i], clientId, NewProject(draft, projectIdFor, i))))
  }

  /** Adding a project to an id no client has changes nothing. */
  lemma AddProjectUnknownClient(st: ListState, clientId: Id, draft: ProjectDraft, projectIdFor: nat -> Id)
    requires forall i :: 0 <= i < |st.clients| ==> st.clients[i].id != clientId
    ensures AddProject(st, clientId, draft, projectIdFor) == st
  {
  }

  /** Every client has at least one project, and its first project is the
      default "General" one. */
  ghost predicate GeneralFirst(st: ListState) {
    forall i :: 0 <= i < |st.clients| ==>
      |st.clients[i].projects| >= 1
      && st.clients[i].projects[0].name == GeneralName
      && st.clients[i].projects[0].description == Some(GeneralDescription)
  }

  /** The list starts with no clients, and both operations keep every
      client's first project the default one. */
  lemma GeneralFirstInvariant(st: ListState, form: ClientForm, clientId: Id, projectId: Id, draft: ProjectDraft, projectIdFor: nat -> Id)
    ensures GeneralFirst(Initial())
    ensures GeneralFirst(st) ==> GeneralFirst(AddClient(st, form, clientId, projectId))
    ensures GeneralFirst(st) ==> GeneralFirst(AddProject(st, clientId, draft, projectIdFor))
    ensures GeneralFirst(st) ==> GeneralFirst(OpenDialog(st))
  {
    if GeneralFirst(st) {
      var r := AddProject(st, clientId, draft, projectIdFor);
      forall i | 0 <= i < |r.clients|
        ensures |r.clients[i].projects| >= 1 && r.clients[i].projects[0] == st.clients[i].projects[0]
      {
        assert r.clients[i] == WithProject(st.clients[i], clientId, Project(projectIdFor(i), draft.name, draft.description));
      }
    }
  }

  /** A project added to a client is its last project, under the id drawn
      for that client, and the number of projects of clients with that id
      grows by one. Two clients sharing the id get two separately drawn ids. */
  lemma AddedProjectIsLast(st: ListState, clientId: Id, draft: ProjectDraft, projectIdFor: nat -> Id, i: int)
    requires 0 <= i < |st.clients| && st.clients[i].id == clientId
    ensures var c := AddProject(st, clientId, draft, projectIdFor).clients[i];
      && |c.projects| == |st.clients[i].projects| + 1
      && c.projects[|c.projects| - 1] == Project(projectIdFor(i), draft.name, draft.description)
      && c.projects[..|st.clients[i].projects|] == st.clients[i].projects
  {
  }
}
