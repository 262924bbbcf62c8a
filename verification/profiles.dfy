/** The entities of the service: a profile and the projects embedded in it.
    The `skills` and `projects` columns hold JSON text in the table; here
    they are the structured values that text encodes. */
module Profiles {
  import opened Wrappers

  /** A project entry. The server stores project objects verbatim, so
      `links` may be absent; the browser client always supplies it. The
      record keeps only these three fields: anything else a client posts
      in a project object is not represented. */
  datatype Project = Project(title: string, description: string, links: Option<seq<string>>)

  /** One row of the `profiles` table, without its id and timestamps. */
  datatype Profile = Profile(
    name: string,
    email: string,
    education: Option<string>,
    skills: seq<string>,
    projects: seq<Project>)
}
