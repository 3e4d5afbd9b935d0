module Scopes {
  /** Where a record lives: a workspace and one of its projects. */
  datatype Scope = Scope(workspace: string, project: string)
}
