/** The dashboard lookup and the response builder of app/utils/helpers.py. */
module Helpers {
  import opened Wrappers

  const DefaultDashboard: string := "/Dean_Dashboard.html"

  /** The department-to-dashboard table. */
  const DashboardMap: map<string, string> := map[
    "Registrar" := "/Registrar_Dashboard.html",
    "Dean" := "/Dean_Dashboard.html",
    "Dean_CS" := "/Dean_CS_Dashboard.html",
    "Dean_CoEd" := "/Dean_CoEd_Dashboard.html",
    "Dean_HM" := "/Dean_HM_Dashboard.html",
    "Accounting" := "/Accounting_Dashboard.html",
    "Library" := "/Library_Dashboard.html",
    "Guidance" := "/GuidanceOffice_Dashboard.html",
    "Property_Custodian" := "/PropertyCustodian_Dashboard.html",
    "Computer_Laboratory" := "/ComputerLaboratory_Dashboard.html",
    "Student_Affairs" := "/StudentAffairs_dashboard.html"
  ]

  /** `get_department_dashboard`: a listed department gets its own page; the
      generic dean page goes to "Dean" and to every unlisted name. */
  function GetDepartmentDashboard(department: string): (r: string)
    ensures department in DashboardMap ==> r == DashboardMap[department]
    ensures r == DefaultDashboard <==> department == "Dean" || department !in DashboardMap
  {
    if department in DashboardMap then DashboardMap[department] else DefaultDashboard
  }

  /** A value of the response dictionary. */
  datatype Field<D> = Flag(b: bool) | Text(s: string) | Data(d: map<string, D>)

  /** `create_response`: 'ok' and 'message' always, 'data' exactly when data
      is given, an empty dictionary included. */
  method CreateResponse<D>(success: bool, message: string, data: Option<map<string, D>>)
    returns (response: map<string, Field<D>>)
    ensures response.Keys == {"ok", "message"} + (if data.Some? then {"data"} else {})
    ensures response["ok"] == Flag(success) && response["message"] == Text(message)
    ensures data.Some? ==> response["data"] == Data(data.value)
  {
    response := map["ok" := Flag(success), "message" := Text(message)];
    if data.Some? {
      response := response["data" := Data(data.value)];
    }
  }
}
